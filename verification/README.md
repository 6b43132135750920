# Substitution rule engine

A Dafny model of the calculation core of a small service. The core is `src/types.rs`. An input record holds three booleans A, B, C, a float D and two 32-bit integers E, F. A *substitution* variant (`Base`, `Custom1`, `Custom2`) classifies the triple (A, B, C) into a category H (`M`, `P` or `T`) using that variant's rule table, then computes a value K with a formula chosen by (variant, category).

Files:
- `wrappers.dfy`: the `Option` datatype, which stands for Rust's `Option`.
- `types.dfy`: module `Types`. It holds the data model (`Input`, `HValue`, `Output`, `Substitution`), the rule tables, and the four operations `FromStr`, `GetHValue`/`HValueOf`, `GetKValue` and `GetOutput`, with the lemmas about them.

How the model is built:
- The rule tables are finite maps. They are built the way the source builds them: successive inserts, with the Custom2 table made from a copy of the Base table. The per-variant map has no entry for `Custom1`, so `Custom1` falls back to the Base table (`ActiveTable`).
- `get_h_value` scans a `HashMap`, and the order of that scan is unspecified. The method `GetHValue` takes this order as a parameter (`order`, any listing of the three categories) and runs the source's early-return loop over it. Its postcondition says the result equals `HValueOf`, for every such order. `HValueOf` is the order-free reference: the unique category whose expected triple equals the input's triple, or none. Two facts justify this. Every table is injective (`ActiveTable`). With an injective table, the scan order cannot change the answer (`FirstMatchOrderIrrelevant`).
- `get_output` is a pure function, so `GetOutput` is written as a function too. A function cannot call a method, so `GetOutput` uses `HValueOf`, which `GetHValue` is proved equal to.
- D and K are reals, not IEEE-754 doubles. E and F have type `i32`, a newtype bounded to the 32-bit range. They are widened to reals exactly, just as every `i32` converts exactly to an `f64`.

## Model

| member | source | states |
|---|---|---|
| `Types.FromStr` | src/types.rs:58-64 | the result is `Base`, `Custom1` or `Custom2` exactly when the string is `"base"`, `"custom1"` or `"custom2"`; every other string gives none |
| `Types.FromStrRejectsOtherCasings` | src/types.rs:58-64 | the match is case-sensitive: `"Base"`, `"BASE"`, `"Custom1"`, `"CUSTOM2"`, … and the empty string give none |
| `Types.FromStrInjective` | src/types.rs:58-64 | each variant is accepted under exactly one spelling |
| `Types.BaseTable` | src/types.rs:81-84 | the Base table has exactly the keys M, P, T, expects (T,T,F) for M, (T,T,T) for P and (F,T,T) for T, and is injective |
| `Types.Custom2Table` | src/types.rs:87-89 | the Custom2 table has the same keys as Base and the same P entry; its M entry (T,F,T) and T entry (T,T,F) differ from Base's; it is injective |
| `Types.Tables` | src/types.rs:80-93 | the per-variant map has entries for Base and Custom2 only (none for Custom1), holding the Base and Custom2 tables |
| `Types.ActiveTable` | src/types.rs:79-97 | the table a variant uses always exists, is the Base table for a variant with no entry of its own, has exactly the keys M, P, T, and is injective |
| `Types.Custom2OverridesBase` | src/types.rs:81-90 | the Custom2 table has the same keys as Base and the same P entry (T,T,T); it overrides M with (T,F,T) and T with (T,T,F), where Base has M as (T,T,F) |
| `Types.FirstMatch` | src/types.rs:99-105 | a scan returns a visited key whose expectation matches the triple, and no earlier key matches; it returns none only when no visited key matches |
| `Types.DeclaredOrderTieBreak` | src/types.rs:99-105 | if several categories expected the same triple, the reference lookup would answer the earliest of them in the order M, P, T |
| `Types.AmbiguousTableAnswersM` | src/types.rs:99-105 | on a table where M and P both expect a triple, the reference lookup answers M |
| `Types.HValueOf` | src/types.rs:96-105 | the category is `h` exactly when `h` is in the active table and its expected triple equals the input's (A, B, C); none when no entry matches |
| `Types.FirstMatchFinds` | src/types.rs:99-105 | with an injective table, a scan that reaches a matching key returns that key |
| `Types.FirstMatchOrderIrrelevant` | src/types.rs:99-105 | with an injective table, any two scan orders that list the same keys give the same answer |
| `Types.GetHValue` | src/types.rs:78-106 | the early-return loop over the map's entries returns `HValueOf(sub, input)`, whatever order the map is iterated in |
| `Types.BaseClassification` | src/types.rs:81-105 | under Base, (T,T,F) is M, (T,T,T) is P, (F,T,T) is T, and the other five triples (such as (T,F,T)) are unclassified |
| `Types.Custom1ClassifiesAsBase` | src/types.rs:96-97 | Custom1 has no table of its own and classifies every input as Base does |
| `Types.Custom2Classification` | src/types.rs:86-90 | under Custom2, (T,F,T) is M, (T,T,T) is P, (T,T,F) is T, and the other five triples (among them (F,T,T)) are unclassified |
| `Types.GetKValue` | src/types.rs:109-124 | the override arms take precedence: (Custom2, M) gives `f + d + d*e/100` and (Custom1, P) gives `2d + d*e/100`; every other M gives `d + d*e/10`, every other P gives `d + d*(e-f)/25.5`, and every T gives `d - d*f/30` |
| `Types.KValueInheritsBase` | src/types.rs:114-123 | outside the two override pairs, every variant computes the same K as Base |
| `Types.KValueExamples` | src/types.rs:255-285 | with d=30, e=10, f=7 and category M, Base gives exactly 60 and Custom2 gives exactly 40 |
| `Types.GetOutput` | src/types.rs:68-73 | the output is none exactly when classification is none; otherwise its H is the classified category and its K is `GetKValue` for that category |
| `Types.GetOutputCharacterization` | src/types.rs:68-73 | the output is `o` exactly when the active table expects the input's triple for `o.h` and `o.k` is that category's K |
| `Types.GetOutputNoneIffUnclassified` | src/types.rs:68-73 | there is no output exactly when no entry of the active table expects the input's triple |
| `Types.GetOutputExamples` | src/types.rs:172-206 | Base on (T,T,F, 33.3, 10, 7) gives H = M and K = 66.6 exactly over the reals; on (T,F,T, 33.3, 10, 7) it gives none |

## Left out

- `Input::from_str` (src/types.rs:17-22) is left out. It is a wrapper over an external YAML deserialiser. `Input` is a plain six-field record, and parsing is taken as given.
- The `Display` implementation of `Output` (src/types.rs:38-42) is left out, because it depends on Rust's float-to-string formatting.
- The `OnceCell` lazy initialisation (src/types.rs:53-54, 79) is left out. It is a once-only synchronisation guard, and the tables are constants here.
- src/main.rs is not part of this model. It holds HTTP routing, the entry point, the static page, and the `unwrap` calls that crash on a bad variant name, bad input or unclassified input.
- Types.GetKValue: K is computed over the reals, without IEEE-754 rounding. So the model does not reproduce float results such as the equality of the 66.6 test at src/types.rs:184, which holds for doubles only by a rounding coincidence. Over the reals the value is exactly 66.6.
- The f64 values that have no real counterpart are not modelled: NaN and ±infinity in D, and a K that overflows to infinity. D is a finite real here, and K is the exact real value of its formula.
- The fallback in `ActiveTable` is modelled with an `Option`, like the `?` at src/types.rs:97. `ActiveTable` proves that this fallback never yields none.

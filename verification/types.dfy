/**
 * The substitution rule engine of src/types.rs.
 *
 * An input record carries three booleans (A, B, C) and three numbers
 * (D, E, F). A substitution variant classifies the boolean triple into a
 * category H by looking it up in a per-variant rule table, then computes a
 * value K from the numbers with a formula chosen by (variant, category).
 */
module Types {
  import opened Wrappers

  /** Rust's `i32`, the type of the E and F fields. */
  newtype i32 = x: int | -0x8000_0000 <= x < 0x8000_0000

  /**
   * The input record. D is an `f64` in the source; it is modelled as a real,
   * and E and F are widened to reals exactly (every `i32` is an exact `f64`).
   */
  datatype Input = Input(a: bool, b: bool, c: bool, d: real, e: i32, f: i32)

  /** The three categories. */
  datatype HValue = M | P | T

  /** The result of a successful evaluation: the category and the value K. */
  datatype Output = Output(h: HValue, k: real)

  /** The closed set of substitution variants. */
  datatype Substitution = Base | Custom1 | Custom2

  /** An expected (A, B, C) triple. */
  type Triple = (bool, bool, bool)

  /** A rule table: the expected triple of each category. */
  type Table = map<HValue, Triple>

  /** The boolean triple of an input, the key that classification compares against. */
  function TripleOf(input: Input): (t: Triple)
    ensures t.0 == input.a && t.1 == input.b && t.2 == input.c
  {
    (input.a, input.b, input.c)
  }

  /** The declared order of the categories, used as the tie-break of the reference lookup. */
  const Categories: seq<HValue> := [M, P, T]

  /** The position of a category in the declared order. */
  function Rank(h: HValue): (n: nat)
    ensures n < |Categories| && Categories[n] == h
  {
    match h
    case M => 0
    case P => 1
    case T => 2
  }

  /** No two categories of the table expect the same triple. */
  predicate Injective(table: Table) {
    forall h1, h2 :: h1 in table && h2 in table && table[h1] == table[h2] ==> h1 == h2
  }

  // ---------------------------------------------------------------------------
  // Parsing the variant name

  /** Maps an exact, case-sensitive variant name to its variant. */
  function FromStr(s: string): (r: Option<Substitution>)
    ensures r == Some(Base) <==> s == "base"
    ensures r == Some(Custom1) <==> s == "custom1"
    ensures r == Some(Custom2) <==> s == "custom2"
  {
    if s == "base" then Some(Base)
    else if s == "custom1" then Some(Custom1)
    else if s == "custom2" then Some(Custom2)
    else None
  }

  /** Only the three lower-case names are accepted: any other casing is rejected. */
  lemma FromStrRejectsOtherCasings()
    ensures FromStr("Base") == None && FromStr("BASE") == None
    ensures FromStr("Custom1") == None && FromStr("CUSTOM1") == None
    ensures FromStr("Custom2") == None && FromStr("CUSTOM2") == None
    ensures FromStr("") == None
  {
  }

  /** Each variant has exactly one spelling. */
  lemma FromStrInjective(s1: string, s2: string)
    requires FromStr(s1).Some? && FromStr(s1) == FromStr(s2)
    ensures s1 == s2
  {
  }

  // ---------------------------------------------------------------------------
  // The rule tables

  /** The Base table, built by three inserts into an empty map. */
  function BaseTable(): (t: Table)
    ensures t.Keys == {M, P, T} && Injective(t)
    ensures t[M] == (true, true, false) && t[P] == (true, true, true) && t[T] == (false, true, true)
  {
    map[][M := (true, true, false)][P := (true, true, true)][T := (false, true, true)]
  }

  /** The Custom2 table: a copy of the Base table with two entries overwritten. */
  function Custom2Table(): (t: Table)
    ensures t.Keys == BaseTable().Keys && Injective(t)
    ensures t[P] == BaseTable()[P]
    ensures t[M] == (true, false, true) != BaseTable()[M]
    ensures t[T] == (true, true, false) != BaseTable()[T]
  {
    BaseTable()[T := (true, true, false)][M := (true, false, true)]
  }

  /** The per-variant tables. A variant without an entry (Custom1) has no table of its own. */
  function Tables(): (r: map<Substitution, Table>)
    ensures r.Keys == {Base, Custom2} && Custom1 !in r
    ensures r[Base] == BaseTable() && r[Custom2] == Custom2Table()
  {
    map[][Custom2 := Custom2Table()][Base := BaseTable()]
  }

  /**
   * The table a variant classifies with: its own entry, else the Base entry.
   * It always exists, covers every category and is injective, so a lookup
   * in it has at most one answer whatever order it is searched in.
   */
  function ActiveTable(sub: Substitution): (r: Option<Table>)
    ensures r.Some?
    ensures r.value.Keys == {M, P, T}
    ensures Injective(r.value)
    ensures sub !in Tables() ==> r == Some(BaseTable())
  {
    if sub in Tables() then Some(Tables()[sub])
    else if Base in Tables() then Some(Tables()[Base])
    else None
  }

  /** Custom2 keeps Base's expectation for P and overrides those for M and T. */
  lemma Custom2OverridesBase()
    ensures ActiveTable(Custom2).value.Keys == ActiveTable(Base).value.Keys
    ensures ActiveTable(Custom2).value[P] == ActiveTable(Base).value[P] == (true, true, true)
    ensures ActiveTable(Base).value[M] == (true, true, false)
    ensures ActiveTable(Custom2).value[M] == (true, false, true)
    ensures ActiveTable(Custom2).value[T] == (true, true, false)
  {
  }

  // ---------------------------------------------------------------------------
  // Classification (H)

  /** The first key of `keys`, in order, whose expected triple in `table` is `t`. */
  function FirstMatch(table: Table, keys: seq<HValue>, t: Triple): (r: Option<HValue>)
    ensures r.Some? ==> r.value in keys && r.value in table && table[r.value] == t
    ensures r.None? ==> forall i :: 0 <= i < |keys| && keys[i] in table ==> table[keys[i]] != t
    ensures r.Some? ==> exists i :: 0 <= i < |keys| && keys[i] == r.value &&
                                   (forall j :: 0 <= j < i ==> keys[j] !in table || table[keys[j]] != t)
    decreases |keys|
  {
    if keys == [] then None
    else if keys[0] in table && table[keys[0]] == t then Some(keys[0])
    else FirstMatch(table, keys[1..], t)
  }

  /**
   * The category of an input under a variant: the unique category whose
   * expected triple in the active table is the input's triple, or None when
   * there is none.
   */
  function HValueOf(sub: Substitution, input: Input): (r: Option<HValue>)
    ensures forall h :: r == Some(h) <==>
      h in ActiveTable(sub).value && ActiveTable(sub).value[h] == TripleOf(input)
  {
    match ActiveTable(sub)
    case None => None
    case Some(table) =>
      var r := FirstMatch(table, Categories, TripleOf(input));
      assert forall h :: r == Some(h) <==> h in table && table[h] == TripleOf(input) by {
        forall h | h in table && table[h] == TripleOf(input) ensures r == Some(h) {
          FirstMatchFinds(table, Categories, TripleOf(input), h);
        }
      }
      r
  }

  /** With an injective table, a scan that meets a matching key returns that key. */
  lemma FirstMatchFinds(table: Table, keys: seq<HValue>, t: Triple, h: HValue)
    requires Injective(table)
    requires h in keys && h in table && table[h] == t
    ensures FirstMatch(table, keys, t) == Some(h)
  {
  }

  /**
   * If several categories of a table expected the same triple, the reference
   * lookup would pick the earliest of them in the declared order M, P, T.
   */
  lemma DeclaredOrderTieBreak(table: Table, t: Triple, h: HValue)
    requires h in table && table[h] == t
    ensures FirstMatch(table, Categories, t).Some?
    ensures Rank(FirstMatch(table, Categories, t).value) <= Rank(h)
  {
  }

  /** On a table where M and P both expect `t`, the reference lookup answers M. */
  lemma AmbiguousTableAnswersM(t: Triple, other: Triple)
    ensures FirstMatch(map[M := t, P := t, T := other], Categories, t) == Some(M)
  {
  }

  /** `order` lists every category exactly once, as iterating a three-entry HashMap does. */
  predicate ListsEachCategoryOnce(order: seq<HValue>) {
    |order| == 3 && M in order && P in order && T in order
  }

  /**
   * The lookup of get_h_value: pick the active table, then scan its entries
   * in the map's iteration order and return the first category whose
   * expectation equals the input's triple. The iteration order of the
   * source's HashMap is unspecified; it is the parameter `order` here, and
   * the result is the same for every such order.
   */
  method GetHValue(sub: Substitution, input: Input, order: seq<HValue>) returns (r: Option<HValue>)
    requires ListsEachCategoryOnce(order)
    ensures r == HValueOf(sub, input)
  {
    var active := ActiveTable(sub);
    if active.None? {
      return None;
    }
    var table := active.value;
    var triple := TripleOf(input);
    var i := 0;
    while i < |order|
      invariant 0 <= i <= |order|
      invariant forall j :: 0 <= j < i ==> table[order[j]] != triple
    {
      var h := order[i];
      if table[h] == triple {
        return Some(h);
      }
      i := i + 1;
    }
    assert forall h :: h in table ==> table[h] != triple by {
      forall h | h in table ensures table[h] != triple {
        var j :| 0 <= j < |order| && order[j] == h;
      }
    }
    return None;
  }

  /** With an injective table, the scan order does not change the answer. */
  lemma FirstMatchOrderIrrelevant(table: Table, keys1: seq<HValue>, keys2: seq<HValue>, t: Triple)
    requires Injective(table)
    requires forall h :: h in keys1 <==> h in table
    requires forall h :: h in keys2 <==> h in table
    ensures FirstMatch(table, keys1, t) == FirstMatch(table, keys2, t)
  {
  }

  /** Base: (T,T,F) is M, (T,T,T) is P, (F,T,T) is T, and the other five triples are unclassified. */
  lemma BaseClassification(input: Input)
    ensures HValueOf(Base, input) ==
      match TripleOf(input)
      case (true, true, false) => Some(M)
      case (true, true, true) => Some(P)
      case (false, true, true) => Some(T)
      case _ => None
  {
  }

  /** Custom1 has no table of its own and classifies every input as Base does. */
  lemma Custom1ClassifiesAsBase(input: Input)
    ensures HValueOf(Custom1, input) == HValueOf(Base, input)
  {
  }

  /** Custom2: (T,F,T) is M, (T,T,T) is P, (T,T,F) is T, and the other five triples are unclassified. */
  lemma Custom2Classification(input: Input)
    ensures HValueOf(Custom2, input) ==
      match TripleOf(input)
      case (true, false, true) => Some(M)
      case (true, true, true) => Some(P)
      case (true, true, false) => Some(T)
      case _ => None
  {
  }

  // ---------------------------------------------------------------------------
  // The value K

  /** The formula of (variant, category); the two variant-specific arms come first. */
  function GetKValue(sub: Substitution, input: Input, h: HValue): (k: real)
    ensures (sub, h) == (Custom2, M) ==> k == input.f as real + input.d + input.d * (input.e as real) / 100.0
    ensures (sub, h) == (Custom1, P) ==> k == 2.0 * input.d + input.d * (input.e as real) / 100.0
    ensures h == M && sub != Custom2 ==> k == input.d + input.d * (input.e as real) / 10.0
    ensures h == P && sub != Custom1 ==>
      k == input.d + input.d * (input.e as real - input.f as real) / 25.5
    ensures h == T ==> k == input.d - input.d * (input.f as real) / 30.0
  {
    var d := input.d;
    var e := input.e as real;
    var f := input.f as real;
    match (sub, h)
    case (Custom2, M) => f + d + d * e / 100.0
    case (Custom1, P) => 2.0 * d + d * e / 100.0
    case (_, M) => d + d * e / 10.0
    case (_, P) => d + d * (e - f) / 25.5
    case (_, T) => d - d * f / 30.0
  }

  /** Outside the two override pairs, every variant computes K as Base does. */
  lemma KValueInheritsBase(sub: Substitution, input: Input, h: HValue)
    requires (sub, h) != (Custom2, M) && (sub, h) != (Custom1, P)
    ensures GetKValue(sub, input, h) == GetKValue(Base, input, h)
  {
  }

  /** With D = 30, E = 10, F = 7 and category M, Base gives 60 and Custom2 gives 40. */
  lemma KValueExamples(a: bool, b: bool, c: bool)
    ensures GetKValue(Base, Input(a, b, c, 30.0, 10, 7), M) == 60.0
    ensures GetKValue(Custom2, Input(a, b, c, 30.0, 10, 7), M) == 40.0
  {
  }

  // ---------------------------------------------------------------------------
  // The composition

  /** Classify, and only when that succeeds, compute K for the category found. */
  function GetOutput(sub: Substitution, input: Input): (r: Option<Output>)
    ensures r.None? <==> HValueOf(sub, input).None?
    ensures r.Some? ==> r.value.h == HValueOf(sub, input).value
    ensures r.Some? ==> r.value.k == GetKValue(sub, input, r.value.h)
  {
    match HValueOf(sub, input)
    case None => None
    case Some(h) => Some(Output(h, GetKValue(sub, input, h)))
  }

  /** The output is exactly the category the active table assigns and its K. */
  lemma GetOutputCharacterization(sub: Substitution, input: Input, o: Output)
    ensures GetOutput(sub, input) == Some(o) <==>
      o.h in ActiveTable(sub).value && ActiveTable(sub).value[o.h] == TripleOf(input) &&
      o.k == GetKValue(sub, input, o.h)
  {
  }

  /** There is no output exactly when no category of the active table expects the input's triple. */
  lemma GetOutputNoneIffUnclassified(sub: Substitution, input: Input)
    ensures GetOutput(sub, input) == None <==>
      forall h :: h in ActiveTable(sub).value ==> ActiveTable(sub).value[h] != TripleOf(input)
  {
  }

  /** Base on (T,T,F, 33.3, 10, 7) gives H = M and K = 66.6; on (T,F,T, ...) it gives nothing. */
  lemma GetOutputExamples()
    ensures GetOutput(Base, Input(true, true, false, 33.3, 10, 7)) == Some(Output(M, 66.6))
    ensures GetOutput(Base, Input(true, false, true, 33.3, 10, 7)) == None
  {
  }
}

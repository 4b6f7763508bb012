/**
 * The statements the Relay code generator emits at the top of a generated
 * module (compiler/crates/relay-codegen/src/top_level_statements.rs): the two
 * enums, their derived total order, and the text of one statement.
 */
module Statement {
  import opened Orderings

  /** How an import binds the imported module: `import x from ...` or
      `import {x}` / `import {x as y} from ...`. */
  datatype ModuleImportName =
    | Default(defaultImport: string)
    | Named(name: string, importAs: Option<string>)

  datatype TopLevelStatement =
    | ImportStatement(moduleImportName: ModuleImportName, path: string)
    | VariableDefinition(text: string)

  /** The derived `Ord` of `ModuleImportName`: `Default` before `Named`, then
      the fields in declaration order. */
  function CompareImportNames(a: ModuleImportName, b: ModuleImportName): (o: Ordering)
    ensures o == Equal <==> a == b
  {
    match (a, b)
    case (Default(x), Default(y)) => CompareStrings(x, y)
    case (Default(_), Named(_, _)) => Less
    case (Named(_, _), Default(_)) => Greater
    case (Named(n1, as1), Named(n2, as2)) => CompareStrings(n1, n2).Then(CompareOptions(as1, as2))
  }

  lemma CompareImportNamesReverse(a: ModuleImportName, b: ModuleImportName)
    ensures CompareImportNames(b, a) == CompareImportNames(a, b).Reverse()
  {
    match (a, b)
    case (Default(x), Default(y)) => CompareStringsReverse(x, y);
    case (Named(n1, as1), Named(n2, as2)) =>
      CompareStringsReverse(n1, n2);
      CompareOptionsReverse(as1, as2);
    case _ =>
  }

  lemma CompareImportNamesTransitive(a: ModuleImportName, b: ModuleImportName, c: ModuleImportName)
    requires CompareImportNames(a, b) != Greater && CompareImportNames(b, c) != Greater
    ensures CompareImportNames(a, c) != Greater
    ensures CompareImportNames(a, b) == Less || CompareImportNames(b, c) == Less ==> CompareImportNames(a, c) == Less
  {
    match (a, b, c)
    case (Default(x), Default(y), Default(z)) => CompareStringsTransitive(x, y, z);
    case (Named(n1, as1), Named(n2, as2), Named(n3, as3)) =>
      CompareStringsTransitive(n1, n2, n3);
      if n1 == n2 && n2 == n3 {
        CompareOptionsTransitive(as1, as2, as3);
      }
    case _ =>
  }

  /** The derived `Ord` of `TopLevelStatement`: every import before every
      variable definition; imports by import name, then by path; variable
      definitions by their text. */
  function Compare(a: TopLevelStatement, b: TopLevelStatement): (o: Ordering)
    ensures o == Equal <==> a == b
  {
    match (a, b)
    case (ImportStatement(m1, p1), ImportStatement(m2, p2)) =>
      CompareImportNames(m1, m2).Then(CompareStrings(p1, p2))
    case (ImportStatement(_, _), VariableDefinition(_)) => Less
    case (VariableDefinition(_), ImportStatement(_, _)) => Greater
    case (VariableDefinition(t1), VariableDefinition(t2)) => CompareStrings(t1, t2)
  }

  lemma CompareReverse(a: TopLevelStatement, b: TopLevelStatement)
    ensures Compare(b, a) == Compare(a, b).Reverse()
  {
    match (a, b)
    case (ImportStatement(m1, p1), ImportStatement(m2, p2)) =>
      CompareImportNamesReverse(m1, m2);
      CompareStringsReverse(p1, p2);
    case (VariableDefinition(t1), VariableDefinition(t2)) => CompareStringsReverse(t1, t2);
    case _ =>
  }

  lemma CompareTransitive(a: TopLevelStatement, b: TopLevelStatement, c: TopLevelStatement)
    requires Compare(a, b) != Greater && Compare(b, c) != Greater
    ensures Compare(a, c) != Greater
    ensures Compare(a, b) == Less || Compare(b, c) == Less ==> Compare(a, c) == Less
  {
    match (a, b, c)
    case (ImportStatement(m1, p1), ImportStatement(m2, p2), ImportStatement(m3, p3)) =>
      CompareImportNamesTransitive(m1, m2, m3);
      if m1 == m2 && m2 == m3 {
        CompareStringsTransitive(p1, p2, p3);
      }
    case (VariableDefinition(t1), VariableDefinition(t2), VariableDefinition(t3)) =>
      CompareStringsTransitive(t1, t2, t3);
    case _ =>
  }

  /** `a <= b` under the derived order. */
  predicate Le(a: TopLevelStatement, b: TopLevelStatement) {
    Compare(a, b) != Greater
  }

  /** `Le` is a total order: any two statements are comparable, and two
      statements each at most the other are the same statement. */
  lemma LeTotal(a: TopLevelStatement, b: TopLevelStatement)
    ensures Le(a, b) || Le(b, a)
    ensures Le(a, b) && Le(b, a) ==> a == b
  {
    CompareReverse(a, b);
  }

  /** Renders one statement as JavaScript source text. */
  function Render(st: TopLevelStatement): (r: string)
    ensures st.VariableDefinition? ==> r == st.text
    ensures st.ImportStatement? ==> |r| >= 10 && r[..7] == "import " && r[|r| - 3..] == "';\n"
  {
    match st
    case ImportStatement(m, path) =>
      (match m
      case Default(defaultImport) =>
        "import " + defaultImport + " from '" + path + "';\n"
      case Named(name, importAs) =>
        if importAs.Some? then
          "import {" + name + " as " + importAs.value + "} from '" + path + "';\n"
        else
          "import {" + name + "} from '" + path + "';\n")
    case VariableDefinition(text) => text
  }

  /** The strings of `ts` joined end to end. */
  function Concat(ts: seq<string>): string {
    if ts == [] then "" else Concat(ts[..|ts| - 1]) + ts[|ts| - 1]
  }

  lemma {:induction false} ConcatAppend(a: seq<string>, b: seq<string>)
    ensures Concat(a + b) == Concat(a) + Concat(b)
    decreases |b|
  {
    if b == [] {
      assert a + b == a;
    } else {
      var c, front := a + b, b[..|b| - 1];
      assert c[..|c| - 1] == a + front && c[|c| - 1] == b[|b| - 1];
      ConcatAppend(a, front);
    }
  }

  /** The rendering of each statement of `s`. */
  function RenderEach(s: seq<TopLevelStatement>): (ts: seq<string>)
    ensures |ts| == |s| && forall i :: 0 <= i < |s| ==> ts[i] == Render(s[i])
  {
    if s == [] then [] else RenderEach(s[..|s| - 1]) + [Render(s[|s| - 1])]
  }

  /** The renderings of `s`, concatenated in the order of `s`. */
  function RenderSeq(s: seq<TopLevelStatement>): string {
    Concat(RenderEach(s))
  }

  lemma RenderSeqAppend(a: seq<TopLevelStatement>, b: seq<TopLevelStatement>)
    ensures RenderSeq(a + b) == RenderSeq(a) + RenderSeq(b)
  {
    assert RenderEach(a + b) == RenderEach(a) + RenderEach(b);
    ConcatAppend(RenderEach(a), RenderEach(b));
  }
}

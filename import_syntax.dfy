/**
 * Reading an import line back: a parser that accepts only lines `Render`
 * writes for an `ImportStatement`, and reads back every import whose names
 * are plain. On such well-formed imports it is the inverse of `Render`: the
 * import line determines the statement, so no two well-formed imports
 * collide in the generated module header.
 */
module ImportSyntax {
  import opened Orderings
  import opened Statement

  /** Index of the first occurrence of `c` in `s`, if any. */
  function FirstIndexOf(s: string, c: char): (k: Option<nat>)
    ensures k.None? ==> c !in s
    ensures k.Some? ==> k.value < |s| && s[k.value] == c && c !in s[..k.value]
  {
    if s == [] then None
    else if s[0] == c then Some(0)
    else
      match FirstIndexOf(s[1..], c)
      case None => None
      case Some(i) =>
        assert s[..i + 1] == [s[0]] + s[1..][..i];
        Some(i + 1)
  }

  lemma FirstIndexOfSplit(a: string, c: char, b: string)
    requires c !in a
    ensures FirstIndexOf(a + [c] + b, c) == Some(|a|)
  {
    var s := a + [c] + b;
    assert s[|a|] == c && s[..|a|] == a;
  }

  /** A name that can stand in an import clause without being mistaken for
      its punctuation: no space, brace or single quote. Every JavaScript
      identifier is one. */
  predicate IsPlainName(s: string) {
    forall i :: 0 <= i < |s| ==> s[i] != ' ' && s[i] != '{' && s[i] != '}' && s[i] != '\''
  }

  /** An import whose default name, imported name and alias are plain; the
      path is unrestricted. */
  predicate WellFormedImport(st: TopLevelStatement) {
    && st.ImportStatement?
    && match st.moduleImportName
       case Default(n) => IsPlainName(n)
       case Named(n, alias) => IsPlainName(n) && (alias.Some? ==> IsPlainName(alias.value))
  }

  /** Reads the part of an import line between `import ` and ` from '`. */
  function ParseClause(clause: string): Option<ModuleImportName> {
    if |clause| >= 2 && clause[0] == '{' && clause[|clause| - 1] == '}' then
      var inner := clause[1..|clause| - 1];
      match FirstIndexOf(inner, ' ')
      case None => Some(Named(inner, None))
      case Some(k) =>
        if |inner| >= k + 4 && inner[k..k + 4] == " as " then
          Some(Named(inner[..k], Some(inner[k + 4..])))
        else
          None
    else
      Some(Default(clause))
  }

  /** Reads one import line: `import <clause> from '<path>';` and a newline. */
  function ParseImport(line: string): Option<TopLevelStatement> {
    if |line| < 10 || line[..7] != "import " || line[|line| - 3..] != "';\n" then None
    else
      var body := line[7..|line| - 3];
      match FirstIndexOf(body, '\'')
      case None => None
      case Some(k) =>
        var head := body[..k];
        if |head| < 6 || head[|head| - 6..] != " from " then None
        else
          match ParseClause(head[..|head| - 6])
          case None => None
          case Some(m) => Some(ImportStatement(m, body[k + 1..]))
  }

  /** A string with a known prefix and suffix is the three parts glued. */
  lemma Framed(s: string, pre: string, post: string)
    requires |s| >= |pre| + |post| && s[..|pre|] == pre && s[|s| - |post|..] == post
    ensures s == pre + s[|pre|..|s| - |post|] + post
  {
  }

  /** Reading the three parts back off `pre + mid + post`. */
  lemma Parts(pre: string, mid: string, post: string)
    ensures (pre + mid + post)[..|pre|] == pre
    ensures (pre + mid + post)[|pre|..|pre| + |mid|] == mid
    ensures (pre + mid + post)[|pre| + |mid|..] == post
    ensures (pre + mid + post)[..|pre| + |mid|] == pre + mid
  {
  }

  /** An import line regrouped around the quote that opens its path. */
  lemma ImportLineParts(clause: string, path: string)
    ensures "import " + clause + " from '" + path + "';\n"
         == "import " + ((clause + " from ") + "'" + path) + "';\n"
  {
  }

  lemma AliasedClauseParts(n: string, alias: string, path: string)
    ensures "import {" + n + " as " + alias + "} from '" + path + "';\n"
         == "import " + ("{" + n + " as " + alias + "}") + " from '" + path + "';\n"
    ensures "{" + n + " as " + alias + "}" == "{" + (n + [' '] + ("as " + alias)) + "}"
    ensures n + " as " + alias == n + [' '] + ("as " + alias)
  {
  }

  lemma NamedClauseParts(n: string, path: string)
    ensures "import {" + n + "} from '" + path + "';\n"
         == "import " + ("{" + n + "}") + " from '" + path + "';\n"
  {
  }

  /** The text between `import ` and ` from '` in the rendering of an
      import with name `m`. */
  ghost function ClauseText(m: ModuleImportName): string {
    match m
    case Default(n) => n
    case Named(n, alias) => if alias.Some? then "{" + n + " as " + alias.value + "}" else "{" + n + "}"
  }

  lemma RenderImportShape(m: ModuleImportName, path: string)
    ensures Render(ImportStatement(m, path)) == "import " + ClauseText(m) + " from '" + path + "';\n"
  {
    match m {
      case Default(_) =>
      case Named(n, alias) =>
        if alias.Some? {
          AliasedClauseParts(n, alias.value, path);
        } else {
          NamedClauseParts(n, path);
        }
    }
  }

  lemma ParseAliasedClause(n: string, alias: string)
    requires ' ' !in n
    ensures ParseClause("{" + n + " as " + alias + "}") == Some(Named(n, Some(alias)))
  {
    var inner := n + [' '] + ("as " + alias);
    AliasedClauseParts(n, alias, "");
    Parts("{", inner, "}");
    FirstIndexOfSplit(n, ' ', "as " + alias);
    Parts(n, " as ", alias);
  }

  lemma ParseNamedClause(n: string)
    requires ' ' !in n
    ensures ParseClause("{" + n + "}") == Some(Named(n, None))
  {
    Parts("{", n, "}");
  }

  lemma ParseClauseText(m: ModuleImportName)
    requires WellFormedImport(ImportStatement(m, ""))
    ensures ParseClause(ClauseText(m)) == Some(m)
  {
    match m {
      case Default(n) =>
        assert n == [] || n[0] != '{';
      case Named(n, alias) =>
        assert ' ' !in n;
        if alias.Some? {
          ParseAliasedClause(n, alias.value);
        } else {
          ParseNamedClause(n);
        }
    }
  }

  lemma ParseImportLine(clause: string, path: string, m: ModuleImportName)
    requires '\'' !in clause
    requires ParseClause(clause) == Some(m)
    ensures ParseImport("import " + clause + " from '" + path + "';\n") == Some(ImportStatement(m, path))
  {
    var head := clause + " from ";
    var body := head + "'" + path;
    ImportLineParts(clause, path);
    Parts("import ", body, "';\n");
    assert '\'' !in head;
    FirstIndexOfSplit(head, '\'', path);
    Parts(head, "'", path);
    Parts(clause, " from ", "");
  }

  /** Every well-formed import is read back from its rendering. */
  lemma ParseRender(st: TopLevelStatement)
    requires WellFormedImport(st)
    ensures ParseImport(Render(st)) == Some(st)
  {
    var m := st.moduleImportName;
    RenderImportShape(m, st.path);
    ParseClauseText(m);
    assert '\'' !in ClauseText(m) by {
      match m {
        case Default(n) => assert forall i :: 0 <= i < |n| ==> n[i] != '\'';
        case Named(n, alias) =>
          assert forall i :: 0 <= i < |n| ==> n[i] != '\'';
          assert alias.Some? ==> forall i :: 0 <= i < |alias.value| ==> alias.value[i] != '\'';
      }
    }
    ParseImportLine(ClauseText(m), st.path, m);
  }

  /** `s` cut around an occurrence of `w` at `k`. */
  lemma SplitAround(s: string, k: nat, w: string)
    requires k + |w| <= |s| && s[k..k + |w|] == w
    ensures s == s[..k] + w + s[k + |w|..]
  {
  }

  lemma BracedAliasParts(inner: string, k: nat)
    requires k + 4 <= |inner| && inner[k..k + 4] == " as "
    ensures "{" + inner + "}" == "{" + inner[..k] + " as " + inner[k + 4..] + "}"
  {
    SplitAround(inner, k, " as ");
  }

  /** A clause that parses is exactly the clause text `Render` writes. */
  lemma ParseClauseSound(clause: string, m: ModuleImportName)
    requires ParseClause(clause) == Some(m)
    ensures ClauseText(m) == clause
  {
    if |clause| >= 2 && clause[0] == '{' && clause[|clause| - 1] == '}' {
      var inner := clause[1..|clause| - 1];
      Framed(clause, "{", "}");
      var k := FirstIndexOf(inner, ' ');
      if k.Some? {
        BracedAliasParts(inner, k.value);
      }
    }
  }

  /** The clause and the path of a line the parser accepts, and the line
      rebuilt from them. */
  lemma ParsedLineParts(line: string) returns (clause: string, path: string)
    requires ParseImport(line).Some?
    ensures ParseClause(clause) == Some(ParseImport(line).value.moduleImportName)
    ensures ParseImport(line).value == ImportStatement(ParseImport(line).value.moduleImportName, path)
    ensures line == "import " + clause + " from '" + path + "';\n"
  {
    var body := line[7..|line| - 3];
    Framed(line, "import ", "';\n");
    var k := FirstIndexOf(body, '\'').value;
    var head := body[..k];
    path := body[k + 1..];
    clause := head[..|head| - 6];
    SplitAround(body, k, "'");
    Framed(head, "", " from ");
    assert head == clause + " from ";
    assert body == head + "'" + path;
    ImportLineParts(clause, path);
  }

  /** Every line the parser accepts is the rendering of what it returns. */
  lemma RenderParse(line: string, st: TopLevelStatement)
    requires ParseImport(line) == Some(st)
    ensures st.ImportStatement? && Render(st) == line
  {
    var clause, path := ParsedLineParts(line);
    ParseClauseSound(clause, st.moduleImportName);
    RenderImportShape(st.moduleImportName, path);
  }

  /** Two well-formed imports with the same text are the same import. */
  lemma RenderInjective(a: TopLevelStatement, b: TopLevelStatement)
    requires WellFormedImport(a) && WellFormedImport(b)
    requires Render(a) == Render(b)
    ensures a == b
  {
    ParseRender(a);
    ParseRender(b);
  }

  /** Without plain names the rendering is ambiguous: an imported name that
      itself contains ` as ` renders like an aliased import, and a default
      name written in braces renders like a named import. */
  lemma RenderAmbiguousWithoutPlainNames()
    ensures Render(ImportStatement(Named("a as b", None), "m"))
         == Render(ImportStatement(Named("a", Some("b")), "m"))
    ensures ImportStatement(Named("a as b", None), "m") != ImportStatement(Named("a", Some("b")), "m")
    ensures Render(ImportStatement(Default("{x}"), "m")) == Render(ImportStatement(Named("x", None), "m"))
    ensures ImportStatement(Default("{x}"), "m") != ImportStatement(Named("x", None), "m")
  {
  }
}

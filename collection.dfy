/**
 * `TopLevelStatements`: the statements a generated module needs at its top,
 * keyed by the symbol each one introduces. The store is an insertion-ordered
 * map (`keys` gives the order, `entries` the mapping); rendering sorts the
 * stored statements by their derived order and concatenates their texts.
 */
module Collection {
  import opened Statement
  import opened Sorting

  predicate Distinct(keys: seq<string>) {
    forall i, j :: 0 <= i < j < |keys| ==> keys[i] != keys[j]
  }

  /** The statements stored under `keys`, in the order of `keys`. */
  function ValuesOf(keys: seq<string>, entries: map<string, TopLevelStatement>): (vs: seq<TopLevelStatement>)
    requires forall k :: k in keys ==> k in entries
    ensures |vs| == |keys| && forall i {:trigger vs[i]} :: 0 <= i < |keys| ==> vs[i] == entries[keys[i]]
  {
    if keys == [] then [] else ValuesOf(keys[..|keys| - 1], entries) + [entries[keys[|keys| - 1]]]
  }

  /** The text of a collection whose stored statements are `values`, taken
      in any order: the statements sorted, then rendered one after another. */
  function Output(values: seq<TopLevelStatement>): string {
    RenderSeq(Sort(values))
  }

  class TopLevelStatements {
    var keys: seq<string>
    var entries: map<string, TopLevelStatement>

    /** Each symbol is stored once, and the key order lists exactly the
        stored symbols. */
    ghost predicate Valid()
      reads this
    {
      Distinct(keys) && forall k :: k in entries <==> k in keys
    }

    /** The stored statements in insertion order. */
    ghost function Values(): seq<TopLevelStatement>
      reads this
      requires Valid()
    {
      ValuesOf(keys, entries)
    }

    /** The empty collection. */
    constructor ()
      ensures Valid() && keys == [] && entries == map[]
      ensures Values() == [] && Output(Values()) == ""
    {
      keys := [];
      entries := map[];
    }

    /** Stores `statement` under `symbol`, replacing what was there; a new
        symbol goes to the end of the key order, an existing one keeps its
        place. */
    method Insert(symbol: string, statement: TopLevelStatement)
      requires Valid()
      modifies this
      ensures Valid()
      ensures entries == old(entries)[symbol := statement]
      ensures keys == if symbol in old(entries) then old(keys) else old(keys) + [symbol]
      ensures Contains(symbol) && entries[symbol] == statement
      ensures |keys| == if symbol in old(entries) then old(|keys|) else old(|keys|) + 1
      ensures multiset(Values()) ==
                if symbol in old(entries)
                then old(multiset(Values())) - multiset{old(entries)[symbol]} + multiset{statement}
                else old(multiset(Values())) + multiset{statement}
    {
      if symbol in entries {
        OverwriteValues(keys, entries, symbol, statement);
      } else {
        AddValues(keys, entries, symbol, statement);
        keys := keys + [symbol];
      }
      entries := entries[symbol := statement];
    }

    /** Whether a statement is stored under `symbol`. */
    function Contains(symbol: string): (b: bool)
      reads this
      requires Valid()
      ensures b <==> symbol in keys
    {
      symbol in entries
    }

    /** Whether nothing is stored. */
    function IsEmpty(): (b: bool)
      reads this
      requires Valid()
      ensures b <==> keys == []
      ensures b <==> Values() == []
    {
      assert keys != [] ==> keys[0] in entries;
      |entries| == 0
    }

    /** The collection's text: the stored statements are collected into a
        fresh array, sorted in place, and their renderings appended in
        sorted order. */
    method Text() returns (text: string)
      requires Valid()
      ensures text == Output(Values())
    {
      var statements := CollectValues();
      SortInPlace(statements);
      SortedUnique(statements[..], Sort(Values()));
      text := Concatenate(statements);
    }

    /** The stored statements, in insertion order, in a fresh array. */
    method CollectValues() returns (statements: array<TopLevelStatement>)
      requires Valid()
      ensures fresh(statements) && statements[..] == Values()
    {
      statements := new TopLevelStatement[|keys|];
      var i := 0;
      while i < |keys|
        invariant 0 <= i <= |keys|
        invariant forall p :: 0 <= p < i ==> statements[p] == entries[keys[p]]
      {
        statements[i] := entries[keys[i]];
        i := i + 1;
      }
    }
  }

  /** Appends the renderings of the statements of `statements`, in order. */
  method Concatenate(statements: array<TopLevelStatement>) returns (text: string)
    ensures text == RenderSeq(statements[..])
  {
    text := "";
    var i := 0;
    while i < statements.Length
      invariant 0 <= i <= statements.Length
      invariant text == RenderSeq(statements[..i])
    {
      assert statements[..i + 1][..i] == statements[..i];
      text := text + Render(statements[i]);
      i := i + 1;
    }
    assert statements[..] == statements[..statements.Length];
  }

  /** Overwriting the statement of a stored symbol swaps the old statement
      for the new one among the stored statements. */
  lemma OverwriteValues(keys: seq<string>, entries: map<string, TopLevelStatement>, symbol: string, statement: TopLevelStatement)
    requires Distinct(keys) && forall k :: k in entries <==> k in keys
    requires symbol in entries
    ensures multiset(ValuesOf(keys, entries[symbol := statement]))
         == multiset(ValuesOf(keys, entries)) - multiset{entries[symbol]} + multiset{statement}
  {
    var before := ValuesOf(keys, entries);
    var i :| 0 <= i < |keys| && keys[i] == symbol;
    assert ValuesOf(keys, entries[symbol := statement]) == before[i := statement];
  }

  /** Storing under a new symbol adds the statement to the stored ones. */
  lemma AddValues(keys: seq<string>, entries: map<string, TopLevelStatement>, symbol: string, statement: TopLevelStatement)
    requires Distinct(keys) && forall k :: k in entries <==> k in keys
    requires symbol !in entries
    ensures Distinct(keys + [symbol])
    ensures multiset(ValuesOf(keys + [symbol], entries[symbol := statement]))
         == multiset(ValuesOf(keys, entries)) + multiset{statement}
  {
    assert ValuesOf(keys + [symbol], entries[symbol := statement]) == ValuesOf(keys, entries) + [statement];
  }

  lemma ValuesOfAppend(a: seq<string>, b: seq<string>, entries: map<string, TopLevelStatement>)
    requires forall k :: k in a + b ==> k in entries
    ensures ValuesOf(a + b, entries) == ValuesOf(a, entries) + ValuesOf(b, entries)
  {
    assert forall k :: k in a ==> k in a + b;
    assert forall k :: k in b ==> k in a + b;
    var l, r := ValuesOf(a + b, entries), ValuesOf(a, entries) + ValuesOf(b, entries);
    forall i | 0 <= i < |l|
      ensures l[i] == r[i]
    {
      if i >= |a| {
        assert (a + b)[i] == b[i - |a|];
      }
    }
  }

  /** Taking the key at `j` out of `keys` takes its statement out of the
      stored statements. */
  lemma ValuesOfRemove(keys: seq<string>, j: nat, entries: map<string, TopLevelStatement>)
    requires j < |keys| && forall k :: k in keys ==> k in entries
    ensures forall k :: k in keys[..j] + keys[j + 1..] ==> k in entries
    ensures multiset(ValuesOf(keys, entries))
         == multiset(ValuesOf(keys[..j] + keys[j + 1..], entries)) + multiset{entries[keys[j]]}
  {
    var rest := keys[..j] + keys[j + 1..];
    assert forall k :: k in rest ==> k in keys;
    assert keys == keys[..j] + [keys[j]] + keys[j + 1..];
    ValuesOfAppend(keys[..j], [keys[j]], entries);
    ValuesOfAppend(keys[..j] + [keys[j]], keys[j + 1..], entries);
    ValuesOfAppend(keys[..j], keys[j + 1..], entries);
  }

  /** Statements stored under two arrangements of the same keys form the
      same multiset. */
  lemma {:induction false} ValuesPermutation(k1: seq<string>, k2: seq<string>, entries: map<string, TopLevelStatement>)
    requires multiset(k1) == multiset(k2)
    requires forall k :: k in k1 ==> k in entries
    requires forall k :: k in k2 ==> k in entries
    ensures multiset(ValuesOf(k1, entries)) == multiset(ValuesOf(k2, entries))
    decreases |k1|
  {
    if k1 == [] {
      assert |k2| == |multiset(k2)| == 0;
    } else {
      var n := |k1|;
      var x := k1[n - 1];
      var front := k1[..n - 1];
      assert x in multiset(k2);
      var j :| 0 <= j < |k2| && k2[j] == x;
      var rest := k2[..j] + k2[j + 1..];
      assert multiset(front) == multiset(rest) by {
        assert k1 == front + [x];
        assert k2 == k2[..j] + [x] + k2[j + 1..];
        assert multiset(k2) == multiset(rest) + multiset{x};
        assert multiset(k1) == multiset(front) + multiset{x};
        assert multiset(front) == multiset(k1) - multiset{x} == multiset(k2) - multiset{x} == multiset(rest);
      }
      ValuesOfRemove(k2, j, entries);
      ValuesPermutation(front, rest, entries);
    }
  }

  lemma {:induction false} DistinctCount(keys: seq<string>, x: string)
    requires Distinct(keys)
    ensures multiset(keys)[x] == if x in keys then 1 else 0
    decreases |keys|
  {
    if keys != [] {
      assert keys == [keys[0]] + keys[1..];
      DistinctCount(keys[1..], x);
    }
  }

  /** Two duplicate-free key orders listing the same symbols are
      permutations of each other. */
  lemma DistinctSameKeys(k1: seq<string>, k2: seq<string>)
    requires Distinct(k1) && Distinct(k2)
    requires forall k :: k in k1 <==> k in k2
    ensures multiset(k1) == multiset(k2)
  {
    forall x
      ensures multiset(k1)[x] == multiset(k2)[x]
    {
      DistinctCount(k1, x);
      DistinctCount(k2, x);
    }
  }

  /** The key order has one position per stored symbol, so its length is
      the number of entries. */
  lemma {:induction false} EntryCount(keys: seq<string>, entries: map<string, TopLevelStatement>)
    requires Distinct(keys) && forall k :: k in entries <==> k in keys
    ensures |entries| == |keys|
    decreases |keys|
  {
    if keys != [] {
      var last := keys[|keys| - 1];
      var front := keys[..|keys| - 1];
      var rest := map k | k in entries && k != last :: entries[k];
      assert forall k :: k in keys <==> k in front || k == last;
      assert last !in front;
      EntryCount(front, rest);
      assert entries.Keys == rest.Keys + {last};
    }
  }

  /** The rendering depends only on the multiset of stored statements. */
  lemma OutputDependsOnlyOnMultiset(s: seq<TopLevelStatement>, t: seq<TopLevelStatement>)
    requires multiset(s) == multiset(t)
    ensures Output(s) == Output(t)
  {
    SortDependsOnlyOnMultiset(s, t);
  }

  /** Two stores holding the same symbol-to-statement mapping render the
      same text, whatever order the symbols were inserted in. */
  lemma OutputIndependentOfInsertionOrder(k1: seq<string>, k2: seq<string>, entries: map<string, TopLevelStatement>)
    requires Distinct(k1) && Distinct(k2)
    requires forall k :: k in entries <==> k in k1
    requires forall k :: k in entries <==> k in k2
    ensures Output(ValuesOf(k1, entries)) == Output(ValuesOf(k2, entries))
  {
    DistinctSameKeys(k1, k2);
    ValuesPermutation(k1, k2, entries);
    OutputDependsOnlyOnMultiset(ValuesOf(k1, entries), ValuesOf(k2, entries));
  }

  /** The imports of `s`, in order. */
  function Imports(s: seq<TopLevelStatement>): (r: seq<TopLevelStatement>)
    ensures forall x :: x in r <==> x in s && x.ImportStatement?
  {
    if s == [] then [] else (if s[0].ImportStatement? then [s[0]] else []) + Imports(s[1..])
  }

  /** The variable definitions of `s`, in order. */
  function Definitions(s: seq<TopLevelStatement>): (r: seq<TopLevelStatement>)
    ensures forall x :: x in r <==> x in s && x.VariableDefinition?
  {
    if s == [] then [] else (if s[0].VariableDefinition? then [s[0]] else []) + Definitions(s[1..])
  }

  lemma {:induction false} AllDefinitions(s: seq<TopLevelStatement>)
    requires forall k :: 0 <= k < |s| ==> s[k].VariableDefinition?
    ensures Imports(s) == [] && Definitions(s) == s
  {
    if s != [] {
      AllDefinitions(s[1..]);
    }
  }

  /** A sorted sequence is its imports followed by its variable definitions. */
  lemma {:induction false} SortedSplit(s: seq<TopLevelStatement>)
    requires Sorted(s)
    ensures s == Imports(s) + Definitions(s)
  {
    if s != [] {
      if s[0].VariableDefinition? {
        forall k | 0 <= k < |s|
          ensures s[k].VariableDefinition?
        {
          if k > 0 {
            assert Le(s[0], s[k]);
          }
        }
        AllDefinitions(s);
      } else {
        SortedSplit(s[1..]);
      }
    }
  }

  /** The rendered text is all import lines, then all variable definitions. */
  lemma ImportsRenderFirst(values: seq<TopLevelStatement>)
    ensures Output(values) == RenderSeq(Imports(Sort(values))) + RenderSeq(Definitions(Sort(values)))
  {
    var s := Sort(values);
    SortedSplit(s);
    RenderSeqAppend(Imports(s), Definitions(s));
  }
}

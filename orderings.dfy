/**
 * The standard-library types and orderings that the derived `Ord` of the
 * statement enums is built from: the three-way `Ordering`, the `Option` type
 * of an import alias, lexicographic comparison of strings, and the order on
 * `Option` in which `None` comes first.
 */
module Orderings {

  /** Result of a three-way comparison. */
  datatype Ordering = Less | Equal | Greater {

    /** The ordering seen from the other side: `b.cmp(a)` when this is `a.cmp(b)`. */
    function Reverse(): Ordering {
      match this
      case Less => Greater
      case Equal => Equal
      case Greater => Less
    }

    /** Lexicographic chaining, as a derived `Ord` does field by field:
        this comparison decides unless it is `Equal`. */
    function Then(next: Ordering): Ordering {
      if this == Equal then next else this
    }
  }

  datatype Option<T> = None | Some(value: T)

  /** Lexicographic comparison of strings: the first differing character
      decides, and a proper prefix comes first. */
  function CompareStrings(a: string, b: string): (o: Ordering)
    ensures o == Equal <==> a == b
    decreases |a|
  {
    if a == [] then (if b == [] then Equal else Less)
    else if b == [] then Greater
    else if a[0] < b[0] then Less
    else if b[0] < a[0] then Greater
    else
      assert a == [a[0]] + a[1..] && b == [b[0]] + b[1..];
      CompareStrings(a[1..], b[1..])
  }

  /** The textbook definition of "a comes strictly before b" in
      lexicographic order, independent of `CompareStrings`. */
  ghost predicate LexLess(a: string, b: string) {
    || (|a| < |b| && a == b[..|a|])
    || exists k :: 0 <= k < |a| && k < |b| && a[..k] == b[..k] && a[k] < b[k]
  }

  lemma {:induction false} CompareStringsLess(a: string, b: string)
    ensures CompareStrings(a, b) == Less <==> LexLess(a, b)
    decreases |a|
  {
    if a != [] && b != [] && a[0] == b[0] {
      CompareStringsLess(a[1..], b[1..]);
      if LexLess(a[1..], b[1..]) {
        if |a[1..]| < |b[1..]| && a[1..] == b[1..][..|a[1..]|] {
          assert a == b[..|a|];
        } else {
          var k :| 0 <= k < |a[1..]| && k < |b[1..]| && a[1..][..k] == b[1..][..k] && a[1..][k] < b[1..][k];
          assert a[..k + 1] == [a[0]] + a[1..][..k];
          assert b[..k + 1] == [b[0]] + b[1..][..k];
          assert a[k + 1] < b[k + 1];
        }
      }
      if LexLess(a, b) {
        if |a| < |b| && a == b[..|a|] {
          assert a[1..] == b[1..][..|a[1..]|];
        } else {
          var k :| 0 <= k < |a| && k < |b| && a[..k] == b[..k] && a[k] < b[k];
          assert k != 0;
          assert a[1..][..k - 1] == a[..k][1..];
          assert b[1..][..k - 1] == b[..k][1..];
          assert a[1..][k - 1] < b[1..][k - 1];
        }
      }
    } else if a != [] && b != [] && a[0] < b[0] {
      assert a[..0] == b[..0];
    } else if a == [] && b != [] {
      assert a == b[..0];
    }
  }

  lemma {:induction false} CompareStringsReverse(a: string, b: string)
    ensures CompareStrings(b, a) == CompareStrings(a, b).Reverse()
    decreases |a|
  {
    if a != [] && b != [] && a[0] == b[0] {
      CompareStringsReverse(a[1..], b[1..]);
    }
  }

  lemma {:induction false} CompareStringsTransitive(a: string, b: string, c: string)
    requires CompareStrings(a, b) != Greater && CompareStrings(b, c) != Greater
    ensures CompareStrings(a, c) != Greater
    ensures CompareStrings(a, b) == Less || CompareStrings(b, c) == Less ==> CompareStrings(a, c) == Less
    decreases |a|
  {
    if a != [] && b != [] && c != [] && a[0] == b[0] && b[0] == c[0] {
      CompareStringsTransitive(a[1..], b[1..], c[1..]);
    }
  }

  /** `Option`'s derived order: `None` first, then the values compared. */
  function CompareOptions(a: Option<string>, b: Option<string>): (o: Ordering)
    ensures o == Equal <==> a == b
    ensures o == Less <==> (a.None? && b.Some?) || (a.Some? && b.Some? && LexLess(a.value, b.value))
  {
    match (a, b)
    case (None, None) => Equal
    case (None, Some(_)) => Less
    case (Some(_), None) => Greater
    case (Some(x), Some(y)) =>
      CompareStringsLess(x, y);
      CompareStrings(x, y)
  }

  lemma CompareOptionsReverse(a: Option<string>, b: Option<string>)
    ensures CompareOptions(b, a) == CompareOptions(a, b).Reverse()
  {
    if a.Some? && b.Some? {
      CompareStringsReverse(a.value, b.value);
    }
  }

  lemma CompareOptionsTransitive(a: Option<string>, b: Option<string>, c: Option<string>)
    requires CompareOptions(a, b) != Greater && CompareOptions(b, c) != Greater
    ensures CompareOptions(a, c) != Greater
    ensures CompareOptions(a, b) == Less || CompareOptions(b, c) == Less ==> CompareOptions(a, c) == Less
  {
    if a.Some? && b.Some? && c.Some? {
      CompareStringsTransitive(a.value, b.value, c.value);
    }
  }
}

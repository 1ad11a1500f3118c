/**
 * The string helpers the generator takes from Go's `strings` and `sort`
 * packages, restated over `seq<char>`: `Repeat`, `Split`, `Join`,
 * `HasPrefix`, byte-wise string order and `sort.Strings` applied to the keys
 * of a map.
 */
module Strings {

  /** `strings.Repeat(s, n)`: `n` copies of `s` back to back. */
  function Repeat(s: string, n: nat): (r: string)
    ensures |r| == n * |s|
  {
    if n == 0 then "" else s + Repeat(s, n - 1)
  }

  /** One more copy at the end is one more copy. */
  lemma {:induction false} RepeatAppend(s: string, n: nat)
    ensures Repeat(s, n) + s == Repeat(s, n + 1)
  {
    if n > 0 {
      RepeatAppend(s, n - 1);
      assert Repeat(s, n) + s == s + (Repeat(s, n - 1) + s);
    }
  }

  /** Two more `../` steps after `n` of them are `n + 2` steps. */
  lemma {:induction false} UpsThen(n: nat, rest: string)
    ensures Repeat("../", n) + "../../" + rest == Repeat("../", n + 2) + rest
  {
    RepeatAppend("../", n);
    RepeatAppend("../", n + 1);
    assert Repeat("../", n) + "../../" == Repeat("../", n) + "../" + "../";
  }

  /** `strings.HasPrefix(s, p)`. */
  predicate HasPrefix(s: string, p: string)
  {
    |p| <= |s| && s[..|p|] == p
  }

  /** Number of occurrences of `c` in `s` (what a regular expression matching
      the single character `c` finds with `FindAllStringIndex(s, -1)`). */
  function Count(s: string, c: char): (n: nat)
    ensures n <= |s|
    ensures n == 0 <==> c !in s
  {
    if |s| == 0 then 0 else (if s[0] == c then 1 else 0) + Count(s[1..], c)
  }

  lemma {:induction false} CountAppend(a: string, b: string, c: char)
    ensures Count(a + b, c) == Count(a, c) + Count(b, c)
    decreases |a|
  {
    if |a| > 0 {
      assert (a + b)[1..] == a[1..] + b;
      CountAppend(a[1..], b, c);
    } else {
      assert a + b == b;
    }
  }

  lemma {:induction false} CountAroundSeparator(a: string, c: char, b: string)
    ensures Count(a + [c] + b, c) == Count(a, c) + 1 + Count(b, c)
  {
    CountAppend(a, [c], c);
    CountAppend(a + [c], b, c);
  }

  /** `strings.Split(s, sep)` for a one-character separator: the pieces between
      occurrences of `sep`, so there is always one more piece than separators
      (an empty `s` gives one empty piece), and no piece contains `sep`. */
  function Split(s: string, sep: char): (parts: seq<string>)
    ensures |parts| == Count(s, sep) + 1
    ensures forall i :: 0 <= i < |parts| ==> sep !in parts[i]
    decreases |s|
  {
    if |s| == 0 then [""]
    else
      var rest := Split(s[1..], sep);
      if s[0] == sep then [""] + rest
      else [[s[0]] + rest[0]] + rest[1..]
  }

  /** `strings.Join(parts, sep)`. */
  function Join(parts: seq<string>, sep: string): string
  {
    if |parts| == 0 then ""
    else if |parts| == 1 then parts[0]
    else parts[0] + sep + Join(parts[1..], sep)
  }

  lemma {:induction false} JoinConsChar(c: char, parts: seq<string>, sep: string)
    requires |parts| >= 1
    ensures Join([[c] + parts[0]] + parts[1..], sep) == [c] + Join(parts, sep)
  {
    var q := [[c] + parts[0]] + parts[1..];
    assert q[1..] == parts[1..];
  }

  /** Joining the pieces of a split with the same separator gives back the
      original string. */
  lemma {:induction false} JoinSplit(s: string, sep: char)
    ensures Join(Split(s, sep), [sep]) == s
    decreases |s|
  {
    if |s| > 0 {
      var rest := Split(s[1..], sep);
      JoinSplit(s[1..], sep);
      if s[0] == sep {
        assert ([""] + rest)[1..] == rest;
        assert s == [sep] + s[1..];
      } else {
        JoinConsChar(s[0], rest, [sep]);
        assert s == [s[0]] + s[1..];
      }
    }
  }

  lemma {:induction false} NotInTail(a: string, c: char)
    requires |a| > 0 && c !in a
    ensures c !in a[1..]
  {
    forall k | 0 <= k < |a[1..]| ensures a[1..][k] != c {
      assert a[1..][k] == a[k + 1];
    }
  }

  /** Splitting a string that starts with another character: that character
      goes in front of the first piece of the rest. */
  lemma {:induction false} SplitCons(s: string, sep: char)
    requires |s| > 0 && s[0] != sep
    ensures Split(s, sep) == [[s[0]] + Split(s[1..], sep)[0]] + Split(s[1..], sep)[1..]
  {
  }

  lemma {:induction false} SplitNoSeparator(a: string, sep: char)
    requires sep !in a
    ensures Split(a, sep) == [a]
    decreases |a|
  {
    if |a| > 0 {
      NotInTail(a, sep);
      SplitNoSeparator(a[1..], sep);
      assert [a[0]] + a[1..] == a;
    }
  }

  lemma {:induction false} SplitAtSeparator(a: string, sep: char, t: string)
    requires sep !in a
    ensures Split(a + [sep] + t, sep) == [a] + Split(t, sep)
    decreases |a|
  {
    var s := a + [sep] + t;
    if |a| == 0 {
      assert s == [sep] + t;
      assert s[1..] == t;
    } else {
      assert s[1..] == a[1..] + [sep] + t;
      NotInTail(a, sep);
      SplitAtSeparator(a[1..], sep, t);
      assert s[0] == a[0];
      SplitCons(s, sep);
      assert [a[0]] + a[1..] == a;
    }
  }

  /** Splitting a join of separator-free pieces gives the pieces back. */
  lemma {:induction false} SplitJoin(parts: seq<string>, sep: char)
    requires |parts| >= 1
    requires forall i :: 0 <= i < |parts| ==> sep !in parts[i]
    ensures Split(Join(parts, [sep]), sep) == parts
    decreases |parts|
  {
    if |parts| == 1 {
      SplitNoSeparator(parts[0], sep);
    } else {
      SplitJoin(parts[1..], sep);
      SplitAtSeparator(parts[0], sep, Join(parts[1..], [sep]));
      assert [parts[0]] + parts[1..] == parts;
    }
  }

  /** A line made of a prefix and then separator-free items joined with the
      separator reads back: it starts with the prefix, and splitting what
      follows the prefix gives the items. */
  lemma {:induction false} ReadBack(prefix: string, items: seq<string>, sep: char)
    requires |items| >= 1
    requires forall i :: 0 <= i < |items| ==> sep !in items[i]
    ensures HasPrefix(prefix + Join(items, [sep]), prefix)
    ensures Split((prefix + Join(items, [sep]))[|prefix|..], sep) == items
  {
    SplitJoin(items, sep);
    var line := prefix + Join(items, [sep]);
    assert line[|prefix|..] == Join(items, [sep]);
    assert line[..|prefix|] == prefix;
  }

  /** Number of leading `../` steps of a relative path: how many directory
      levels the path climbs before descending again. */
  function UpLevels(p: string): nat
    decreases |p|
  {
    if HasPrefix(p, "../") then 1 + UpLevels(p[3..]) else 0
  }

  /** A path made of `n` copies of `../` followed by anything that does not
      itself start with `../` climbs exactly `n` levels. */
  lemma {:induction false} UpLevelsOfRepeat(n: nat, rest: string)
    requires !HasPrefix(rest, "../")
    ensures UpLevels(Repeat("../", n) + rest) == n
  {
    if n > 0 {
      var p := Repeat("../", n) + rest;
      assert p == "../" + (Repeat("../", n - 1) + rest);
      assert p[..3] == "../";
      assert p[3..] == Repeat("../", n - 1) + rest;
      UpLevelsOfRepeat(n - 1, rest);
    }
  }

  lemma {:induction false} UpLevelsOfUps(n: nat)
    ensures UpLevels(Repeat("../", n)) == n
  {
    UpLevelsOfRepeat(n, "");
    assert Repeat("../", n) + "" == Repeat("../", n);
  }

  /** Go's `<` on strings: byte-wise lexicographic order. For UTF-8 text the
      byte order coincides with the code-point order that `char` comparison
      gives here. */
  predicate Less(a: string, b: string)
    decreases |a|
  {
    if |a| == 0 then |b| > 0
    else |b| > 0 && (a[0] < b[0] || (a[0] == b[0] && Less(a[1..], b[1..])))
  }

  lemma {:induction false} LessIrreflexive(a: string)
    ensures !Less(a, a)
    decreases |a|
  {
    if |a| > 0 {
      LessIrreflexive(a[1..]);
    }
  }

  lemma {:induction false} LessTransitive(a: string, b: string, c: string)
    requires Less(a, b) && Less(b, c)
    ensures Less(a, c)
    decreases |a|
  {
    if |a| > 0 && a[0] == b[0] && b[0] == c[0] {
      LessTransitive(a[1..], b[1..], c[1..]);
    }
  }

  lemma {:induction false} LessTotal(a: string, b: string)
    requires a != b
    ensures Less(a, b) || Less(b, a)
    decreases |a|
  {
    if |a| > 0 && |b| > 0 && a[0] == b[0] {
      assert a == [a[0]] + a[1..];
      assert b == [b[0]] + b[1..];
      LessTotal(a[1..], b[1..]);
    }
  }

  lemma {:induction false} LessIsStrictOrder()
    ensures forall a :: !Less(a, a)
    ensures forall a, b, c :: Less(a, b) && Less(b, c) ==> Less(a, c)
  {
    forall a ensures !Less(a, a) {
      LessIrreflexive(a);
    }
    forall a, b, c | Less(a, b) && Less(b, c) ensures Less(a, c) {
      LessTransitive(a, b, c);
    }
  }

  predicate StrictlyAscending(s: seq<string>)
  {
    forall i, j :: 0 <= i < j < |s| ==> Less(s[i], s[j])
  }

  /** `k` is the least element of `ks`. */
  predicate IsLeast(k: string, ks: set<string>)
  {
    k in ks && forall x :: x in ks && x != k ==> Less(k, x)
  }

  /** Every finite non-empty set of strings has a least element. */
  lemma {:induction false} HasMinimum(ks: set<string>)
    requires ks != {}
    ensures exists k :: IsLeast(k, ks)
    decreases ks
  {
    var y :| y in ks;
    if ks == {y} {
      assert forall x :: x in ks ==> x == y;
      assert IsLeast(y, ks);
    } else {
      var rest := ks - {y};
      HasMinimum(rest);
      var m :| IsLeast(m, rest);
      if Less(y, m) {
        LeastBelow(ks, y, m);
      } else {
        LeastAbove(ks, y, m);
      }
    }
  }

  /** Adding an element below the least element makes it the least. */
  lemma {:induction false} LeastBelow(ks: set<string>, y: string, m: string)
    requires y in ks && IsLeast(m, ks - {y}) && Less(y, m)
    ensures IsLeast(y, ks)
  {
    forall x | x in ks && x != y ensures Less(y, x) {
      if x != m {
        assert x in ks - {y};
        LessTransitive(y, m, x);
      }
    }
  }

  /** Adding an element not below the least element keeps the least. */
  lemma {:induction false} LeastAbove(ks: set<string>, y: string, m: string)
    requires y in ks && IsLeast(m, ks - {y}) && !Less(y, m)
    ensures IsLeast(m, ks)
  {
    LessTotal(y, m);
    forall x | x in ks && x != m ensures Less(m, x) {
      if x != y {
        assert x in ks - {y};
      }
    }
  }

  /** The least element of a non-empty set of strings. */
  function Minimum(ks: set<string>): (k: string)
    requires ks != {}
    ensures k in ks
    ensures forall x :: x in ks && x != k ==> Less(k, x)
  {
    HasMinimum(ks);
    LessIsStrictOrder();
    var k :| IsLeast(k, ks);
    k
  }

  /** The elements of a set of strings in ascending order: what collecting the
      keys of a Go map and calling `sort.Strings` on them produces. */
  function SortedSet(ks: set<string>): (s: seq<string>)
    ensures |s| == |ks|
    ensures forall k :: k in s <==> k in ks
    ensures StrictlyAscending(s)
    decreases ks
  {
    if ks == {} then []
    else
      var m := Minimum(ks);
      [m] + SortedSet(ks - {m})
  }

  function SortedKeys(m: map<string, string>): (ks: seq<string>)
    ensures |ks| == |m|
    ensures forall k :: k in ks <==> k in m
    ensures StrictlyAscending(ks)
  {
    SortedSet(m.Keys)
  }

  lemma {:induction false} HeadIsShared(a: seq<string>, b: seq<string>)
    requires forall x :: x in a ==> x in b
    ensures |a| > 0 ==> a[0] in b
  {
    if |a| > 0 {
      var y := a[0];
      assert y in a;
    }
  }

  /** Two strictly ascending sequences with the same elements are equal: the
      ascending order of a set of strings is unique. */
  lemma {:induction false} AscendingUnique(a: seq<string>, b: seq<string>)
    requires StrictlyAscending(a) && StrictlyAscending(b)
    requires forall x :: x in a <==> x in b
    ensures a == b
    decreases |a|
  {
    if |a| == 0 {
      HeadIsShared(b, a);
    } else {
      assert |b| > 0 by {
        assert a[0] in a;
      }
      assert a[0] == b[0] by {
        assert a[0] in b;
        assert b[0] in a;
        var j :| 0 <= j < |b| && b[j] == a[0];
        var i :| 0 <= i < |a| && a[i] == b[0];
        if j > 0 {
          if i > 0 {
            LessTransitive(a[0], b[0], a[0]);
            LessIrreflexive(a[0]);
          } else {
            LessIrreflexive(a[0]);
          }
        }
      }
      forall x ensures x in a[1..] <==> x in b[1..] {
        if x in a[1..] {
          var i :| 1 <= i < |a| && a[i] == x;
          LessIrreflexive(x);
          assert x != b[0];
          assert x in b;
          var j :| 0 <= j < |b| && b[j] == x;
          assert b[1..][j - 1] == x;
        }
        if x in b[1..] {
          var j :| 1 <= j < |b| && b[j] == x;
          LessIrreflexive(x);
          assert x != a[0];
          assert x in a;
          var i :| 0 <= i < |a| && a[i] == x;
          assert a[1..][i - 1] == x;
        }
      }
      AscendingUnique(a[1..], b[1..]);
      assert a == [a[0]] + a[1..];
      assert b == [b[0]] + b[1..];
    }
  }
}

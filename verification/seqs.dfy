/**
 * Positions in concatenated sequences. Every emitter builds its output by
 * concatenating blocks of lines; these lemmas say where each block's lines end
 * up, so that proofs about an emitter need not unfold the blocks themselves.
 */
module Seqs {

  /** The middle part of `a + b + c`. */
  lemma {:induction false} Slice3<T>(a: seq<T>, b: seq<T>, c: seq<T>)
    ensures (a + b + c)[|a|..|a| + |b|] == b
  {
    assert (a + b + c)[|a|..] == b + c;
  }

  /** A slice of a suffix is a slice of the whole, shifted by the suffix's
      start. */
  lemma {:induction false} SliceOfSuffix<T>(r: seq<T>, base: nat, x: nat, y: nat)
    requires base <= |r| && x <= y <= |r| - base
    ensures r[base + x..base + y] == r[base..][x..y]
  {
  }

  /** The three parts of `a + b + c`, each at its place. */
  lemma {:induction false} Place3<T>(a: seq<T>, b: seq<T>, c: seq<T>)
    ensures |a + b + c| == |a| + |b| + |c|
    ensures (a + b + c)[..|a|] == a
    ensures (a + b + c)[|a|..|a| + |b|] == b
    ensures (a + b + c)[|a| + |b|..] == c
  {
    Slice3(a, b, c);
  }

  /** An element of a slice is the element of the whole at the shifted
      index. */
  lemma {:induction false} SliceAt<T>(r: seq<T>, lo: nat, b: seq<T>, i: nat)
    requires lo + |b| <= |r| && r[lo..lo + |b|] == b && i < |b|
    ensures r[lo + i] == b[i]
  {
    assert r[lo..lo + |b|][i] == r[lo + i];
  }

  /** The blocks one after the other. */
  function Concat<T>(blocks: seq<seq<T>>): seq<T>
  {
    if |blocks| == 0 then [] else blocks[0] + Concat(blocks[1..])
  }

  /** The blocks of lines `f` gives for each of `xs`, one after the other. */
  function ConcatMap<X>(f: X -> seq<string>, xs: seq<X>): seq<string>
  {
    if |xs| == 0 then [] else f(xs[0]) + ConcatMap(f, xs[1..])
  }

  lemma {:induction false} ConcatMapAppend<X>(f: X -> seq<string>, a: seq<X>, b: seq<X>)
    ensures ConcatMap(f, a + b) == ConcatMap(f, a) + ConcatMap(f, b)
    decreases |a|
  {
    if |a| > 0 {
      assert (a + b)[1..] == a[1..] + b;
      ConcatMapAppend(f, a[1..], b);
    } else {
      assert a + b == b;
    }
  }

  lemma {:induction false} ConcatMapOne<X>(f: X -> seq<string>, x: X)
    ensures ConcatMap(f, [x]) == f(x)
  {
    assert [x][1..] == [];
  }

  /** The lines `b` occur in `r` starting at index `off`. Stated through
      `Agrees`, so that a proof sees one line of the block at a time and
      reaches the slice form only through `PlacedIff`. */
  ghost predicate Placed(r: seq<string>, off: nat, b: seq<string>)
  {
    off + |b| <= |r| && Agrees(r, off, b, |b|) == true
  }

  /** The first `n` lines of `b` are the lines of `r` from `off` on. */
  ghost predicate Agrees(r: seq<string>, off: nat, b: seq<string>, n: nat)
    decreases n
  {
    n == 0 || (off + n - 1 < |r| && n - 1 < |b| && [r[off + n - 1]] == [b[n - 1]] && Agrees(r, off, b, n - 1))
  }

  lemma {:induction false} AgreesIff(r: seq<string>, off: nat, b: seq<string>, n: nat)
    requires off + n <= |r| && n <= |b|
    ensures Agrees(r, off, b, n) <==> r[off..off + n] == b[..n]
    decreases n
  {
    if n > 0 {
      AgreesIff(r, off, b, n - 1);
      assert r[off..off + n] == r[off..off + n - 1] + [r[off + n - 1]];
      assert b[..n] == b[..n - 1] + [b[n - 1]];
      if r[off..off + n] == b[..n] {
        assert r[off..off + n - 1] == r[off..off + n][..n - 1];
        assert b[..n - 1] == b[..n][..n - 1];
        assert r[off + n - 1] == r[off..off + n][n - 1];
      }
    }
  }

  /** A block is placed exactly when the slice of its length at the offset
      is the block. */
  lemma {:induction false} PlacedIff(r: seq<string>, off: nat, b: seq<string>)
    ensures Placed(r, off, b) <==> off + |b| <= |r| && r[off..off + |b|] == b
  {
    if off + |b| <= |r| {
      AgreesIff(r, off, b, |b|);
      assert b[..|b|] == b;
    }
  }

  /** Both halves of a concatenation, each at its place. */
  lemma {:induction false} Halves(a: seq<string>, b: seq<string>)
    ensures Placed(a + b, 0, a) && Placed(a + b, |a|, b)
  {
    assert (a + b)[0..|a|] == a;
    assert (a + b)[|a|..|a| + |b|] == b;
    PlacedIff(a + b, 0, a);
    PlacedIff(a + b, |a|, b);
  }

  /** The three parts of a concatenation, each at its place. */
  lemma {:induction false} Thirds(a: seq<string>, b: seq<string>, c: seq<string>)
    ensures Placed(a + b + c, 0, a) && Placed(a + b + c, |a|, b) && Placed(a + b + c, |a| + |b|, c)
  {
    Halves(a + b, c);
    Halves(a, b);
    PlacedBefore(a + b, c, 0, a);
    PlacedBefore(a + b, c, |a|, b);
  }

  /** An element of a placed block is the element of the whole at the
      shifted index. */
  lemma {:induction false} PlacedAt(r: seq<string>, off: nat, b: seq<string>, i: nat)
    requires Placed(r, off, b) && i < |b|
    ensures off + i < |r| && r[off + i] == b[i]
  {
    PlacedIff(r, off, b);
    assert r[off..off + |b|][i] == r[off + i];
  }

  /** A placement survives putting lines in front (shifted by their number)
      or after. */
  lemma {:induction false} PlacedShift(a: seq<string>, r: seq<string>, c: seq<string>, off: nat, b: seq<string>)
    requires Placed(r, off, b)
    ensures Placed(a + r + c, |a| + off, b)
  {
    PlacedIff(r, off, b);
    assert (a + r + c)[|a| + off..|a| + off + |b|] == r[off..off + |b|];
    PlacedIff(a + r + c, |a| + off, b);
  }

  /** A placement in a suffix of `r` is a placement in `r`, shifted by the
      suffix's start. */
  lemma {:induction false} PlacedInSuffix(r: seq<string>, base: nat, s: seq<string>, off: nat, b: seq<string>)
    requires base <= |r| && r[base..] == s && Placed(s, off, b)
    ensures Placed(r, base + off, b)
  {
    PlacedIff(s, off, b);
    assert r[base + off..base + off + |b|] == s[off..off + |b|];
    PlacedIff(r, base + off, b);
  }

  /** A placement restated for an equal sequence and an equal offset. */
  lemma {:induction false} PlacedEqual(r: seq<string>, off: nat, b: seq<string>, r': seq<string>, off': nat, b': seq<string>)
    requires Placed(r, off, b) && r == r' && off == off' && b == b'
    ensures Placed(r', off', b')
  {
  }

  lemma {:induction false} PlacedBefore(r: seq<string>, c: seq<string>, off: nat, b: seq<string>)
    requires Placed(r, off, b)
    ensures Placed(r + c, off, b)
  {
    PlacedIff(r, off, b);
    assert (r + c)[off..off + |b|] == r[off..off + |b|];
    PlacedIff(r + c, off, b);
  }

  /** A block placed inside a block is placed in the whole, at the sum of
      the offsets. */
  lemma {:induction false} PlacedWithin(r: seq<string>, off: nat, b: seq<string>, o: nat, c: seq<string>)
    requires Placed(r, off, b) && Placed(b, o, c)
    ensures Placed(r, off + o, c)
  {
    PlacedIff(r, off, b);
    PlacedIff(b, o, c);
    assert r[off..off + |b|][o..o + |c|] == c;
    forall i | 0 <= i < |c| ensures r[off + o + i] == c[i] {
      assert r[off..off + |b|][o + i] == r[off + o + i];
    }
    assert r[off + o..off + o + |c|] == c;
    PlacedIff(r, off + o, c);
  }

  /** A line of a block placed inside a placed block, read off the whole at
      offset `at`. */
  lemma {:induction false} LineWithin(r: seq<string>, off: nat, b: seq<string>, o: nat, c: seq<string>, i: nat,
                                      at: nat, line: string)
    requires Placed(r, off, b) && Placed(b, o, c) && i < |c|
    requires at == off + o + i && c[i] == line
    ensures at < |r| && r[at] == line
  {
    PlacedWithin(r, off, b, o, c);
    PlacedAt(r, off + o, c, i);
  }

  /** A block placed inside a placed block, placed in the whole at offset
      `at`. */
  lemma {:induction false} BlockWithin(r: seq<string>, off: nat, b: seq<string>, o: nat, c: seq<string>, at: nat)
    requires Placed(r, off, b) && Placed(b, o, c) && at == off + o
    ensures Placed(r, at, c)
  {
    PlacedWithin(r, off, b, o, c);
  }

  /** Two levels of nesting. */
  lemma {:induction false} BlockWithin2(r: seq<string>, o1: nat, b1: seq<string>, o2: nat, b2: seq<string>,
                                        o3: nat, b3: seq<string>, at: nat)
    requires Placed(r, o1, b1) && Placed(b1, o2, b2) && Placed(b2, o3, b3) && at == o1 + o2 + o3
    ensures Placed(r, at, b3)
  {
    PlacedWithin(r, o1, b1, o2, b2);
    PlacedWithin(r, o1 + o2, b2, o3, b3);
  }

  /** A line of a placed block, read off the whole at offset `at`. */
  lemma {:induction false} LineAt(r: seq<string>, off: nat, b: seq<string>, i: nat, at: nat, line: string)
    requires Placed(r, off, b) && i < |b| && at == off + i && b[i] == line
    ensures at < |r| && r[at] == line
  {
    PlacedAt(r, off, b, i);
  }

  /** The block of `xs[k]` sits whole in the concatenation, after the blocks
      of the elements before it. */
  lemma {:induction false} ConcatMapPlacement<X>(f: X -> seq<string>, xs: seq<X>, k: nat)
    requires k < |xs|
    ensures Placed(ConcatMap(f, xs), |ConcatMap(f, xs[..k])|, f(xs[k]))
    decreases k
  {
    var head := f(xs[0]);
    var rest := ConcatMap(f, xs[1..]);
    if k == 0 {
      assert xs[..0] == [];
      Halves(head, rest);
    } else {
      assert xs[1..][k - 1] == xs[k];
      ConcatMapPlacement(f, xs[1..], k - 1);
      assert xs[..k][1..] == xs[1..][..k - 1];
      assert xs[..k][0] == xs[0];
      PlacedShift(head, rest, [], |ConcatMap(f, xs[1..][..k - 1])|, f(xs[k]));
      assert head + rest + [] == head + rest;
    }
  }

  /** When the blocks of `xs` make up the suffix of `r` starting at `base`,
      the block of `xs[k]` sits in `r` after `base` and the blocks before
      it. */
  lemma {:induction false} ConcatMapInSuffix<X>(r: seq<string>, base: nat, f: X -> seq<string>, xs: seq<X>, k: nat,
                             off: nat, b: seq<string>)
    requires base <= |r| && r[base..] == ConcatMap(f, xs) && k < |xs|
    requires off == base + |ConcatMap(f, xs[..k])| && b == f(xs[k])
    ensures Placed(r, off, b)
  {
    ConcatMapPlacement(f, xs, k);
    PlacedInSuffix(r, base, ConcatMap(f, xs), |ConcatMap(f, xs[..k])|, f(xs[k]));
  }
}

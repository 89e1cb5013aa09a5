/**
 Byte sequences, and the flattening of a list of equally long blocks into one
 sequence.  Everything here is about values; the linked list that holds the
 blocks is in module ByteArrays.
 */
module Bytes {

  type Byte = b: int | 0 <= b < 256

  /** `s` with the bytes from `at` on overwritten by `chunk`, growing if `chunk` reaches past the end. */
  function Splice(s: seq<Byte>, at: nat, chunk: seq<Byte>): (r: seq<Byte>)
    requires at <= |s|
    ensures |r| == if at + |chunk| <= |s| then |s| else at + |chunk|
  {
    s[..at] + chunk + (if at + |chunk| <= |s| then s[at + |chunk|..] else [])
  }

  /** Overwriting in two consecutive pieces is overwriting once. */
  lemma SpliceTwice(s: seq<Byte>, at: nat, a: seq<Byte>, b: seq<Byte>)
    requires at <= |s|
    ensures Splice(Splice(s, at, a), at + |a|, b) == Splice(s, at, a + b)
  {
  }

  lemma SpliceNothing(s: seq<Byte>, at: nat)
    requires at <= |s|
    ensures Splice(s, at, []) == s
  {
  }

  lemma SpliceFront(a: seq<Byte>, b: seq<Byte>, at: nat, chunk: seq<Byte>)
    requires at + |chunk| <= |a|
    ensures Splice(a + b, at, chunk) == Splice(a, at, chunk) + b
  {
  }

  lemma SpliceBehind(a: seq<Byte>, b: seq<Byte>, at: nat, chunk: seq<Byte>)
    requires at + |chunk| <= |b|
    ensures Splice(a + b, |a| + at, chunk) == a + Splice(b, at, chunk)
  {
  }

  /** Overwriting inside a longer sequence shows as overwriting (and perhaps growing) its first `size` bytes. */
  lemma SpliceInPrefix(s: seq<Byte>, size: nat, at: nat, chunk: seq<Byte>)
    requires at <= size <= |s| && at + |chunk| <= |s|
    ensures Splice(s, at, chunk)[..if at + |chunk| > size then at + |chunk| else size] == Splice(s[..size], at, chunk)
  {
  }

  lemma SlicesJoin(s: seq<Byte>, a: nat, b: nat, c: nat)
    requires a <= b <= c <= |s|
    ensures s[a..b] + s[b..c] == s[a..c]
  {
  }

  lemma SliceOfSlice(s: seq<Byte>, a: nat, b: nat, at: nat, n: nat)
    requires a <= b <= |s| && a + at + n <= b
    ensures s[a..b][at..at + n] == s[a + at..a + at + n]
  {
    var t := s[a..b];
    var left, right := t[at..at + n], s[a + at..a + at + n];
    forall i | 0 <= i < n
      ensures left[i] == right[i]
    {
      assert t[at + i] == s[a + (at + i)];
    }
  }

  lemma SliceOfPrefix(s: seq<Byte>, size: nat, a: nat, b: nat)
    requires a <= b <= size <= |s|
    ensures s[..size][a..b] == s[a..b]
  {
  }

  ghost predicate Uniform(blocks: seq<seq<Byte>>, base: nat) {
    forall i :: 0 <= i < |blocks| ==> |blocks[i]| == base
  }

  ghost function Flatten(blocks: seq<seq<Byte>>): seq<Byte> {
    if blocks == [] then [] else blocks[0] + Flatten(blocks[1..])
  }

  /** Where block `k` starts: k * base, by addition. */
  ghost function Start(base: nat, k: nat): nat {
    if k == 0 then 0 else Start(base, k - 1) + base
  }

  lemma StartIsProduct(base: nat, k: nat)
    ensures Start(base, k) == k * base
  {
    if k > 0 {
      StartIsProduct(base, k - 1);
      assert k * base == (k - 1) * base + base;
    }
  }

  lemma StartMonotone(base: nat, j: nat, k: nat)
    requires j <= k
    ensures Start(base, j) <= Start(base, k)
  {
    if j < k {
      StartMonotone(base, j, k - 1);
    }
  }

  lemma FlattenLength(blocks: seq<seq<Byte>>, base: nat)
    requires Uniform(blocks, base)
    ensures |Flatten(blocks)| == Start(base, |blocks|)
  {
    if blocks != [] {
      FlattenLength(blocks[1..], base);
    }
  }

  lemma Regroup(a: seq<Byte>, b: seq<Byte>, c: seq<Byte>)
    ensures (a + b) + c == a + (b + c)
  {
  }

  lemma {:induction false} FlattenAppend(blocks: seq<seq<Byte>>, more: seq<seq<Byte>>)
    ensures Flatten(blocks + more) == Flatten(blocks) + Flatten(more)
  {
    if blocks == [] {
      assert blocks + more == more;
    } else {
      FlattenAppend(blocks[1..], more);
      assert (blocks + more)[1..] == blocks[1..] + more && (blocks + more)[0] == blocks[0];
      Regroup(blocks[0], Flatten(blocks[1..]), Flatten(more));
    }
  }

  /** Where block `k` lies in the flat sequence. */
  lemma {:induction false} FlattenBlock(blocks: seq<seq<Byte>>, base: nat, k: nat)
    requires Uniform(blocks, base) && k < |blocks|
    ensures Start(base, k) + base <= |Flatten(blocks)|
    ensures Flatten(blocks)[Start(base, k)..Start(base, k) + base] == blocks[k]
  {
    if k == 0 {
      assert Flatten(blocks)[..base] == blocks[0];
    } else {
      FlattenBlock(blocks[1..], base, k - 1);
      var at := Start(base, k - 1);
      assert Flatten(blocks)[base..] == Flatten(blocks[1..]);
      assert Flatten(blocks)[base + at..base + at + base] == Flatten(blocks)[base..][at..at + base];
    }
  }

  /** Overwriting inside block `k` is overwriting the flat sequence. */
  lemma {:induction false} FlattenSplice(blocks: seq<seq<Byte>>, base: nat, k: nat, at: nat, chunk: seq<Byte>)
    requires Uniform(blocks, base) && k < |blocks| && at + |chunk| <= base
    ensures Start(base, k) + base <= |Flatten(blocks)|
    ensures Flatten(blocks[k := Splice(blocks[k], at, chunk)]) == Splice(Flatten(blocks), Start(base, k) + at, chunk)
  {
    hide Splice;
    var changed := blocks[k := Splice(blocks[k], at, chunk)];
    if k == 0 {
      assert changed[1..] == blocks[1..];
      SpliceFront(blocks[0], Flatten(blocks[1..]), at, chunk);
    } else {
      FlattenSplice(blocks[1..], base, k - 1, at, chunk);
      assert changed[1..] == blocks[1..][k - 1 := Splice(blocks[k], at, chunk)];
      SpliceBehind(blocks[0], Flatten(blocks[1..]), Start(base, k - 1) + at, chunk);
    }
  }
}

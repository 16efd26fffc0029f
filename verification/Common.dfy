/** Data shared by the modelled components: options, bytes and chunked byte streams. */
module Common {

  datatype Option<+T> = None | Some(value: T)

  type Byte = x: int | 0 <= x < 256
  type Bytes = seq<Byte>

  const U32_LIMIT := 0x1_0000_0000
  const U64_MAX := 0xffff_ffff_ffff_ffff
  const U64_LIMIT := 0x1_0000_0000_0000_0000

  function Min(a: int, b: int): int {
    if a <= b then a else b
  }

  /** A wrapping 64-bit increment. */
  function WrappingNext(n: nat): nat { (n + 1) % U64_LIMIT }

  /** A wrapping counter holds how often it was raised, modulo 2^64. */
  lemma CounterWraps(count: nat)
    ensures WrappingNext(count % U64_LIMIT) == (count + 1) % U64_LIMIT
  {
  }

  /** Fewer than 2^64 raises apart, a wrapping counter is the same only without a raise. */
  lemma SameCounter(a: nat, b: nat)
    requires a <= b < a + U64_LIMIT
    ensures a % U64_LIMIT == b % U64_LIMIT <==> a == b
  {
  }

  lemma SmallCounter(count: nat)
    requires count < U64_LIMIT
    ensures count % U64_LIMIT == count
  {
  }

  /** The bytes of a chunked stream, in order. */
  function Flatten(chunks: seq<Bytes>): Bytes {
    if chunks == [] then [] else Flatten(chunks[..|chunks| - 1]) + chunks[|chunks| - 1]
  }

  lemma FlattenSnoc(chunks: seq<Bytes>, last: Bytes)
    ensures Flatten(chunks + [last]) == Flatten(chunks) + last
  {
    assert (chunks + [last])[..|chunks|] == chunks;
  }

  lemma {:induction false} FlattenAppend(a: seq<Bytes>, b: seq<Bytes>)
    ensures Flatten(a + b) == Flatten(a) + Flatten(b)
  {
    if b == [] {
      assert a + b == a;
    } else {
      var init := b[..|b| - 1];
      assert a + b == (a + init) + [b[|b| - 1]];
      FlattenSnoc(a + init, b[|b| - 1]);
      FlattenAppend(a, init);
    }
  }

  /** Chunks `i..j` of a chunked stream, in order. */
  function Run(chunks: seq<Bytes>, i: nat, j: nat): Bytes
    requires j <= |chunks|
  {
    if j <= i then [] else Run(chunks, i, j - 1) + chunks[j - 1]
  }

  lemma {:induction false} RunSplit(chunks: seq<Bytes>, i: nat, k: nat, j: nat)
    requires i <= k <= j <= |chunks|
    ensures Run(chunks, i, j) == Run(chunks, i, k) + Run(chunks, k, j)
  {
    if k < j { RunSplit(chunks, i, k, j - 1); }
  }

  lemma {:induction false} RunOfAll(chunks: seq<Bytes>, j: nat)
    requires j <= |chunks|
    ensures Run(chunks, 0, j) == Flatten(chunks[..j])
  {
    if j > 0 {
      RunOfAll(chunks, j - 1);
      assert chunks[..j] == chunks[..j - 1] + [chunks[j - 1]];
      FlattenSnoc(chunks[..j - 1], chunks[j - 1]);
    }
  }

  lemma JoinSlices(s: Bytes, a: nat, b: nat)
    requires a <= b <= |s|
    ensures s[..a] + s[a..b] == s[..b]
  {
  }

  predicate IsLeast(s: set<int>, x: int) {
    x in s && forall y :: y in s ==> x <= y
  }

  lemma {:induction false} FindLeast(s: set<int>, some: int) returns (least: int)
    requires some in s
    ensures IsLeast(s, least)
    decreases |s|
  {
    if y :| y in s && y < some {
      var rest := FindLeast(s - {some}, y);
      least := rest;
      assert forall z :: z in s ==> z == some || z in s - {some};
    } else {
      least := some;
    }
  }

  lemma HasLeast(s: set<int>)
    requires s != {}
    ensures exists x :: IsLeast(s, x)
  {
    assert (forall x :: x !in s) ==> s == {};
    var some :| some in s;
    var least := FindLeast(s, some);
  }

  /** The elements of a set in ascending order, as an ordered map iterates its keys. */
  function SortedIds(s: set<int>): (ids: seq<int>)
    ensures |ids| == |s|
    decreases |s|
  {
    if s == {} then []
    else
      HasLeast(s);
      var least :| IsLeast(s, least);
      [least] + SortedIds(s - {least})
  }

  predicate Ascending(ids: seq<int>) {
    forall i, j :: 0 <= i < j < |ids| ==> ids[i] < ids[j]
  }

  lemma ConsAscending(least: int, rest: seq<int>)
    requires Ascending(rest) && forall x :: x in rest ==> least < x
    ensures Ascending([least] + rest)
  {
    var ids := [least] + rest;
    forall i, j | 0 <= i < j < |ids| ensures ids[i] < ids[j] {
      assert ids[j] == rest[j - 1] && rest[j - 1] in rest;
    }
  }

  /** The least element comes first. */
  lemma SortedIdsUncons(s: set<int>) returns (least: int)
    requires s != {}
    ensures IsLeast(s, least) && SortedIds(s) == [least] + SortedIds(s - {least})
  {
    least := SortedIds(s)[0];
  }

  lemma ConsElements(s: set<int>, least: int, rest: seq<int>)
    requires least in s && forall x :: x in s - {least} <==> x in rest
    ensures forall x :: x in s <==> x in [least] + rest
  {
    forall x ensures x in s <==> x in [least] + rest {
      assert x in s <==> x == least || x in s - {least};
    }
  }

  lemma LeastBelowRest(s: set<int>, least: int, rest: seq<int>)
    requires IsLeast(s, least) && forall x :: x in s - {least} <==> x in rest
    ensures forall x :: x in rest ==> least < x
  {
    forall x | x in rest ensures least < x {
      assert x in s - {least};
    }
  }

  lemma {:induction false} SortedIdsAreSorted(s: set<int>)
    ensures forall x :: x in s <==> x in SortedIds(s)
    ensures Ascending(SortedIds(s))
    decreases |s|
  {
    if s == {} {
      assert SortedIds(s) == [];
    } else {
      var least := SortedIdsUncons(s);
      var rest := SortedIds(s - {least});
      assert least in s;
      SortedIdsAreSorted(s - {least});
      SortedIdsCons(s, least, rest);
    }
  }

  lemma SortedIdsCons(s: set<int>, least: int, rest: seq<int>)
    requires IsLeast(s, least) && Ascending(rest) && forall x :: x in s - {least} <==> x in rest
    ensures Ascending([least] + rest) && forall x :: x in s <==> x in [least] + rest
  {
    hide Ascending;
    ConsElements(s, least, rest);
    LeastBelowRest(s, least, rest);
    ConsAscending(least, rest);
  }
}

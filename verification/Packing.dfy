/** Encrypted chunks and their size-bounded packing into store batches and fetch pages. */
module Packing {
  import opened Base
  import Postcard

  type Nonce = b: Bytes | |b| == 24 witness seq(24, _ => 0)

  datatype EncryptedChunk = EncryptedChunk(index: U32, nonce: Nonce, ciphertext: Bytes)

  const MAX_BATCH_PAYLOAD: nat := 900 * 1024

  /** The serialized chunk; its length is what batches and pages are bounded by. */
  function Encode(c: EncryptedChunk): (r: Bytes)
    ensures |r| >= 26
  {
    Postcard.Varint(c.index) + c.nonce + Postcard.Block(c.ciphertext)
  }

  function Size(c: EncryptedChunk): (n: nat)
    ensures n >= |c.ciphertext| + 26
  {
    |Encode(c)|
  }

  lemma {:induction false} EncodeInjective(c: EncryptedChunk, d: EncryptedChunk)
    requires Encode(c) == Encode(d)
    ensures c == d
  {
    var x, y := Postcard.Block(c.ciphertext), Postcard.Block(d.ciphertext);
    assert Encode(c) == Postcard.Varint(c.index) + (c.nonce + x);
    assert Encode(d) == Postcard.Varint(d.index) + (d.nonce + y);
    Postcard.VarintSplits(c.index, d.index, c.nonce + x, d.nonce + y);
    assert c.nonce == (c.nonce + x)[..24] && d.nonce == (d.nonce + y)[..24];
    assert x == (c.nonce + x)[24..] && y == (d.nonce + y)[24..];
    assert x + [] == x && y + [] == y;
    Postcard.BlockSplits(c.ciphertext, d.ciphertext, [], []);
  }

  function Total(s: seq<EncryptedChunk>): nat {
    if s == [] then 0 else Size(s[0]) + Total(s[1..])
  }

  lemma {:induction false} TotalConcat(a: seq<EncryptedChunk>, b: seq<EncryptedChunk>)
    ensures Total(a + b) == Total(a) + Total(b)
  {
    if a == [] {
      assert a + b == b;
    } else {
      assert (a + b)[1..] == a[1..] + b;
      TotalConcat(a[1..], b);
    }
  }

  lemma {:induction false} TotalSnoc(a: seq<EncryptedChunk>, x: EncryptedChunk)
    ensures Total(a + [x]) == Total(a) + Size(x)
  {
    TotalConcat(a, [x]);
    assert Total([x]) == Size(x) + Total([]);
  }

  /** No more than the cap, unless a single chunk is over it on its own. */
  ghost predicate Fits(b: seq<EncryptedChunk>) {
    Total(b) <= MAX_BATCH_PAYLOAD || |b| <= 1
  }

  ghost predicate AllFit(bs: seq<seq<EncryptedChunk>>) {
    forall i :: 0 <= i < |bs| ==> Fits(bs[i])
  }

  /** The first chunk of `later` would have taken `earlier` over the cap. */
  ghost predicate NoRoom(earlier: seq<EncryptedChunk>, later: seq<EncryptedChunk>) {
    later != [] && Total(earlier) + Size(later[0]) > MAX_BATCH_PAYLOAD
  }

  /** Nonempty fitting groups, each of which could not also have taken the first chunk of the next. */
  ghost predicate Greedy(bs: seq<seq<EncryptedChunk>>) {
    && (forall i :: 0 <= i < |bs| ==> bs[i] != [] && Fits(bs[i]))
    && (forall i, j :: 0 <= i && j == i + 1 < |bs| ==> NoRoom(bs[i], bs[j]))
  }

  lemma {:induction false} OverfullGroup(a: seq<EncryptedChunk>, b: seq<EncryptedChunk>, x: EncryptedChunk,
      c: seq<EncryptedChunk>)
    requires b != [] && Total(b) + Size(x) > MAX_BATCH_PAYLOAD
    ensures !Fits(a + b + [x] + c)
  {
    TotalConcat(a + b + [x], c);
    TotalSnoc(a + b, x);
    TotalConcat(a, b);
  }

  /** A partition that still has at least the chunks of `bs` ahead of it needs at least `|bs|` groups. */
  lemma {:induction false} GreedyStaysAhead(bs: seq<seq<EncryptedChunk>>, p: seq<seq<EncryptedChunk>>,
      done: seq<EncryptedChunk>)
    requires Greedy(bs) && AllFit(p)
    requires Flatten(p) == done + Flatten(bs)
    ensures |bs| <= |p|
    decreases |bs|
  {
    if bs == [] {
    } else {
      var xs, ys := Flatten(bs), Flatten(p);
      assert xs == bs[0] + Flatten(bs[1..]);
      assert ys != [] by { assert |ys| >= |bs[0]|; }
      assert ys == p[0] + Flatten(p[1..]);
      var cut := |done| + |bs[0]|;
      if |p[0]| <= cut {
        var done' := (done + bs[0])[|p[0]|..];
        assert Flatten(p[1..]) == ys[|p[0]|..] == done' + Flatten(bs[1..]);
        GreedyStaysAhead(bs[1..], p[1..], done');
      } else if |bs| == 1 {
      } else {
        assert NoRoom(bs[0], bs[1]);
        var x := bs[1][0];
        var rest := Flatten(bs[1..]);
        assert rest == bs[1] + Flatten(bs[2..]) by { assert bs[1..][1..] == bs[2..]; }
        assert rest[0] == x;
        assert p[0] == ys[..|p[0]|] && ys[..cut + 1] == done + bs[0] + [x];
        assert p[0] == done + bs[0] + [x] + p[0][cut + 1..];
        OverfullGroup(done, bs[0], x, p[0][cut + 1..]);
        assert false;
      }
    }
  }

  /** No order-preserving partition into fitting groups uses fewer groups than the greedy one. */
  lemma {:induction false} GreedyOptimal(bs: seq<seq<EncryptedChunk>>, p: seq<seq<EncryptedChunk>>)
    requires Greedy(bs) && AllFit(p) && Flatten(p) == Flatten(bs)
    ensures |bs| <= |p|
  {
    assert Flatten(p) == [] + Flatten(bs);
    GreedyStaysAhead(bs, p, []);
  }

  /** Greedy groups followed by one more that fits and for which the last had no room are greedy. */
  lemma {:induction false} GreedySnoc(front: seq<seq<EncryptedChunk>>, last: seq<EncryptedChunk>)
    requires Greedy(front) && last != [] && Fits(last)
    requires front != [] ==> NoRoom(front[|front| - 1], last)
    ensures Greedy(front + [last])
  {
    var bs := front + [last];
    forall i, j | 0 <= i && j == i + 1 < |bs| ensures NoRoom(bs[i], bs[j]) {
      if j < |front| { assert NoRoom(front[i], front[j]); }
    }
  }

  lemma {:induction false} OpenBatch(bs: seq<seq<EncryptedChunk>>, c: EncryptedChunk)
    requires Greedy(bs)
    requires bs != [] ==> Total(bs[|bs| - 1]) + Size(c) > MAX_BATCH_PAYLOAD
    ensures Greedy(bs + [[c]]) && Flatten(bs + [[c]]) == Flatten(bs) + [c]
  {
    FlattenSnoc(bs, [c]);
    GreedySnoc(bs, [c]);
  }

  lemma {:induction false} GreedyPrefix(bs: seq<seq<EncryptedChunk>>)
    requires Greedy(bs) && bs != []
    ensures Greedy(bs[..|bs| - 1])
    ensures |bs| > 1 ==> NoRoom(bs[|bs| - 2], bs[|bs| - 1])
  {
    var front := bs[..|bs| - 1];
    forall i, j | 0 <= i && j == i + 1 < |front| ensures NoRoom(front[i], front[j]) {
      assert NoRoom(bs[i], bs[j]);
    }
  }

  lemma {:induction false} ExtendBatch(bs: seq<seq<EncryptedChunk>>, c: EncryptedChunk)
    requires Greedy(bs) && bs != []
    requires Total(bs[|bs| - 1]) + Size(c) <= MAX_BATCH_PAYLOAD
    ensures var next := bs[..|bs| - 1] + [bs[|bs| - 1] + [c]];
      Greedy(next) && Flatten(next) == Flatten(bs) + [c]
  {
    var front, last := bs[..|bs| - 1], bs[|bs| - 1];
    LastSplit(bs);
    FlattenSnoc(front, last);
    FlattenSnoc(front, last + [c]);
    TotalSnoc(last, c);
    GreedyPrefix(bs);
    assert (last + [c])[0] == last[0];
    GreedySnoc(front, last + [c]);
  }

  /** One more chunk for the batches so far. */
  function AddTo(bs: seq<seq<EncryptedChunk>>, c: EncryptedChunk): seq<seq<EncryptedChunk>> {
    var last := |bs| - 1;
    if bs == [] || Total(bs[last]) + Size(c) > MAX_BATCH_PAYLOAD then bs + [[c]]
    else bs[..last] + [bs[last] + [c]]
  }

  function Batches(s: seq<EncryptedChunk>): seq<seq<EncryptedChunk>> {
    if s == [] then [] else AddTo(Batches(s[..|s| - 1]), s[|s| - 1])
  }

  lemma {:induction false} BatchesStep(s: seq<EncryptedChunk>, i: nat)
    requires i < |s|
    ensures Batches(s[..i + 1]) == AddTo(Batches(s[..i]), s[i])
  {
    PrefixSnoc(s, i);
    DropLast(s[..i], s[i]);
  }

  lemma {:induction false} BatchesAreGreedy(s: seq<EncryptedChunk>)
    ensures Greedy(Batches(s)) && Flatten(Batches(s)) == s
  {
    if s == [] {
    } else {
      var front, c := s[..|s| - 1], s[|s| - 1];
      BatchesAreGreedy(front);
      LastSplit(s);
      var bs := Batches(front);
      if bs == [] || Total(bs[|bs| - 1]) + Size(c) > MAX_BATCH_PAYLOAD {
        OpenBatch(bs, c);
      } else {
        ExtendBatch(bs, c);
      }
    }
  }

  lemma {:induction false} FirstIsLongest(a: seq<seq<EncryptedChunk>>, b: seq<seq<EncryptedChunk>>)
    requires Greedy(a) && Greedy(b) && Flatten(a) == Flatten(b) && a != [] && b != []
    ensures |b[0]| <= |a[0]|
  {
    var xs := Flatten(a);
    assert xs == a[0] + Flatten(a[1..]) && xs == b[0] + Flatten(b[1..]);
    if |b[0]| > |a[0]| {
      assert |a| > 1;
      assert NoRoom(a[0], a[1]);
      var n, x := |a[0]|, a[1][0];
      assert Flatten(a[1..])[0] == x;
      assert xs[n] == x;
      assert b[0] == xs[..|b[0]|] && a[0] == xs[..n];
      assert b[0] == [] + a[0] + [x] + b[0][n + 1..];
      OverfullGroup([], a[0], x, b[0][n + 1..]);
      assert false;
    }
  }

  lemma {:induction false} GreedyTail(bs: seq<seq<EncryptedChunk>>)
    requires Greedy(bs) && bs != []
    ensures Greedy(bs[1..])
  {
    var tail := bs[1..];
    forall i, j | 0 <= i && j == i + 1 < |tail| ensures NoRoom(tail[i], tail[j]) {
      assert NoRoom(bs[j], bs[j + 1]);
    }
  }

  lemma {:induction false} GreedyOfNothing(bs: seq<seq<EncryptedChunk>>)
    requires Greedy(bs)
    ensures Flatten(bs) == [] <==> bs == []
  {
    if bs != [] { assert Flatten(bs) == bs[0] + Flatten(bs[1..]); }
  }

  /** A list of chunks has one greedy packing. */
  lemma {:induction false} GreedyUnique(a: seq<seq<EncryptedChunk>>, b: seq<seq<EncryptedChunk>>)
    requires Greedy(a) && Greedy(b) && Flatten(a) == Flatten(b)
    ensures a == b
  {
    GreedyOfNothing(a);
    GreedyOfNothing(b);
    if a == [] || b == [] {
    } else {
      FirstIsLongest(a, b);
      FirstIsLongest(b, a);
      assert a[0] == Flatten(a)[..|a[0]|] && b[0] == Flatten(b)[..|b[0]|];
      assert Flatten(a[1..]) == Flatten(a)[|a[0]|..] && Flatten(b[1..]) == Flatten(b)[|b[0]|..];
      GreedyTail(a);
      GreedyTail(b);
      GreedyUnique(a[1..], b[1..]);
      assert a == [a[0]] + a[1..] && b == [b[0]] + b[1..];
    }
  }

  /** The batching loop of `push_chunks`. */
  method Batch(encrypted: seq<EncryptedChunk>) returns (batches: seq<seq<EncryptedChunk>>)
    ensures batches == Batches(encrypted)
    ensures Flatten(batches) == encrypted
    ensures Greedy(batches)
  {
    batches := [];
    var carried: nat := 0;
    for i := 0 to |encrypted|
      invariant batches == Batches(encrypted[..i])
      invariant batches != [] ==> carried == Total(batches[|batches| - 1])
    {
      var chunk, size := encrypted[i], Size(encrypted[i]);
      BatchesStep(encrypted, i);
      if batches == [] || carried + size > MAX_BATCH_PAYLOAD {
        ghost var before := batches;
        batches := batches + [[]];
        carried := 0;
        DropLast(before, []);
        assert [] + [chunk] == [chunk];
      }
      var last := |batches| - 1;
      TotalSnoc(batches[last], chunk);
      batches := batches[..last] + [batches[last] + [chunk]];
      carried := carried + size;
    }
    assert encrypted[..|encrypted|] == encrypted;
    BatchesAreGreedy(encrypted);
  }

  /** What one fetch returns of the chunks still to come: the longest fitting prefix, at least one chunk. */
  ghost predicate IsPage(page: seq<EncryptedChunk>, rest: seq<EncryptedChunk>) {
    && page <= rest
    && Fits(page)
    && (rest != [] ==> page != [])
    && (|page| < |rest| ==> Total(page) + Size(rest[|page|]) > MAX_BATCH_PAYLOAD)
  }

  /** There is always a page: cut the rest after its longest fitting prefix. */
  lemma {:induction false} PageExists(rest: seq<EncryptedChunk>) returns (page: seq<EncryptedChunk>)
    ensures IsPage(page, rest)
  {
    BatchesAreGreedy(rest);
    var bs := Batches(rest);
    if bs == [] {
      page := [];
    } else {
      page := bs[0];
      FirstIsPage(bs);
    }
  }

  lemma {:induction false} FirstIsPage(bs: seq<seq<EncryptedChunk>>)
    requires Greedy(bs) && bs != []
    ensures IsPage(bs[0], Flatten(bs))
  {
    var rest := Flatten(bs);
    assert rest == bs[0] + Flatten(bs[1..]);
    if |bs| > 1 {
      assert NoRoom(bs[0], bs[1]);
      assert Flatten(bs[1..])[0] == bs[1][0];
      assert rest[|bs[0]|] == bs[1][0];
    }
  }

  /** The paging loop of `fetch_chunks`, from the chunks left after skipping `offset`. */
  method Page(rest: seq<EncryptedChunk>) returns (page: seq<EncryptedChunk>)
    ensures IsPage(page, rest)
  {
    page := [];
    var budget: nat := MAX_BATCH_PAYLOAD;
    var i := 0;
    while i < |rest|
      invariant 0 <= i <= |rest| && page == rest[..i]
      invariant Fits(page)
      invariant budget == if Total(page) <= MAX_BATCH_PAYLOAD then MAX_BATCH_PAYLOAD - Total(page) else 0
      invariant i == 0 ==> Total(page) == 0
    {
      var size := Size(rest[i]);
      if page != [] && budget < size {
        break;
      }
      TotalSnoc(page, rest[i]);
      page := page + [rest[i]];
      budget := if budget >= size then budget - size else 0;
      i := i + 1;
    }
  }

  /** A page holds far fewer than 2^32 chunks, so counting it in 32 bits loses nothing. */
  lemma {:induction false} PageIsShort(page: seq<EncryptedChunk>)
    requires Fits(page)
    ensures |page| <= MAX_BATCH_PAYLOAD
  {
    SizeBound(page);
  }

  lemma {:induction false} SizeBound(s: seq<EncryptedChunk>)
    ensures |s| <= Total(s)
  {
    if s != [] { SizeBound(s[1..]); }
  }
}

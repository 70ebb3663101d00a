/** What a pull can return: soundness of every success, and exactly when it returns the whole stored list. */
module StoreRuns {
  import opened Base
  import opened Manifests
  import opened Packing
  import opened BlobStore
  import opened Wire
  import opened StoreFrames
  import opened StoreClient

  /** The pages fetched so far are the greedy packing of what they hold. */
  ghost predicate PagesOf(pages: seq<seq<EncryptedChunk>>, collected: seq<EncryptedChunk>, all: seq<EncryptedChunk>) {
    && Greedy(pages)
    && Flatten(pages) == collected
    && collected <= all
    && (pages != [] && |collected| < |all| ==>
          Total(pages[|pages| - 1]) + Size(all[|collected|]) > MAX_BATCH_PAYLOAD)
  }

  lemma {:induction false} NextPage(pages: seq<seq<EncryptedChunk>>, collected: seq<EncryptedChunk>,
      all: seq<EncryptedChunk>, page: seq<EncryptedChunk>)
    requires PagesOf(pages, collected, all) && |collected| < |all|
    requires IsPage(page, all[|collected|..])
    ensures PagesOf(pages + [page], collected + page, all)
  {
    FlattenSnoc(pages, page);
    var rest := all[|collected|..];
    assert page[0] == rest[0] == all[|collected|];
    assert collected + page <= all;
    assert |page| < |rest| ==> rest[|page|] == all[|collected| + |page|];
    GreedySnoc(pages, page);
  }

  lemma {:induction false} GreedyJoin(a: seq<seq<EncryptedChunk>>, b: seq<seq<EncryptedChunk>>)
    requires Greedy(a) && Greedy(b)
    requires a != [] && b != [] ==> NoRoom(a[|a| - 1], b[0])
    ensures Greedy(a + b)
  {
    var bs := a + b;
    forall i, j | 0 <= i && j == i + 1 < |bs| ensures NoRoom(bs[i], bs[j]) {
      if j < |a| {
        assert NoRoom(a[i], a[j]);
      } else if i >= |a| {
        assert NoRoom(b[i - |a|], b[j - |a|]);
      }
    }
  }

  /** Whatever chunk comes next had no room in the last page. */
  lemma {:induction false} NoRoomForRest(pages: seq<seq<EncryptedChunk>>, collected: seq<EncryptedChunk>,
      all: seq<EncryptedChunk>, tail: seq<seq<EncryptedChunk>>)
    requires PagesOf(pages, collected, all) && Greedy(tail) && Flatten(tail) == all[|collected|..]
    ensures pages != [] && tail != [] ==> NoRoom(pages[|pages| - 1], tail[0])
  {
    if tail != [] {
      assert Flatten(tail) == tail[0] + Flatten(tail[1..]);
      assert tail[0][0] == all[|collected|..][0] == all[|collected|];
    }
  }

  lemma {:induction false} PrefixOfConcat<T>(a: seq<T>, b: seq<T>, c: seq<T>)
    requires a + b == c
    ensures a <= c && (b == [] ==> a == c)
  {
  }

  /** The pages of a pull are the batches of a push: a prefix of the one greedy packing. */
  lemma {:induction false} PagesAreBatches(pages: seq<seq<EncryptedChunk>>, collected: seq<EncryptedChunk>,
      all: seq<EncryptedChunk>)
    requires PagesOf(pages, collected, all)
    ensures pages <= Batches(all)
    ensures |collected| == |all| ==> pages == Batches(all)
  {
    hide Batches, Flatten, Greedy, NoRoom;
    var rest := all[|collected|..];
    var tail := Batches(rest);
    BatchesAreGreedy(rest);
    BatchesAreGreedy(all);
    GreedyOfNothing(tail);
    NoRoomForRest(pages, collected, all, tail);
    GreedyJoin(pages, tail);
    FlattenAppend(pages, tail);
    assert collected + rest == all;
    GreedyUnique(pages + tail, Batches(all));
    PrefixOfConcat(pages, tail, Batches(all));
  }

  /** A run of fetches collects stored chunks; over distinct indices it collects a prefix of the sorted
      list, in greedy pages, although every fetch re-reads the directory in its own order. */
  lemma {:induction false} FetchRunCollects(pages: seq<seq<EncryptedChunk>>, m: FileManifest, blobs: Blobs,
      fileId: FileId, hash: Bytes -> Digest)
    requires WellAddressed(hash, blobs) && FetchRun(pages, m, blobs, fileId)
    ensures |Flatten(pages)| <= |blobs| && Elements(Flatten(pages)) <= blobs.Values
    ensures forall all :: Represents(all, blobs) ==>
      |all| == |blobs| && PagesOf(pages, Flatten(pages), all) && pages <= Batches(all)
    decreases |pages|
  {
    if pages == [] {
      RepresentationSize(blobs, hash);
    } else {
      var n := |pages| - 1;
      var front, page := pages[..n], pages[n];
      LastSplit(pages);
      FlattenSnoc(front, page);
      FetchRunCollects(front, m, blobs, fileId, hash);
      FetchedPage(page, blobs, |Flatten(front)|, hash);
      forall all | Represents(all, blobs)
        ensures |all| == |blobs| && PagesOf(pages, Flatten(pages), all) && pages <= Batches(all)
      {
        NextPage(front, Flatten(front), all, page);
        PagesAreBatches(pages, Flatten(pages), all);
      }
    }
  }

  lemma {:induction false} RepresentationSize(blobs: Blobs, hash: Bytes -> Digest)
    requires WellAddressed(hash, blobs)
    ensures forall all :: Represents(all, blobs) ==> |all| == |blobs|
  {
    forall all | Represents(all, blobs) ensures |all| == |blobs| {
      NoDuplicatesCardinality(all);
      assert Elements(all) == blobs.Values;
      ValuesCardinality(blobs, hash);
    }
  }

  lemma {:induction false} RunWasAnswered(pages: seq<seq<EncryptedChunk>>, m: FileManifest, blobs: Blobs,
      fileId: FileId, j: nat)
    requires FetchRun(pages, m, blobs, fileId) && j < |pages|
    ensures Answerable(fileId, m, pages[j])
    decreases |pages|
  {
    hide Answerable, IsFetched, Flatten, SendOver;
    var n := |pages| - 1;
    if j < n {
      RunWasAnswered(pages[..n], m, blobs, fileId, j);
      assert pages[j] == pages[..n][j];
    }
  }

  lemma {:induction false} VerdictIsSound(collected: seq<EncryptedChunk>, m: FileManifest, blobs: Blobs)
    requires Elements(collected) <= blobs.Values
    ensures IsSound(Verdict(collected, m), m, blobs)
    ensures IsSound(Err(FrameTooLarge), m, blobs) && IsSound(Err(NoReply), m, blobs)
  {
  }

  /** A success holds stored chunks, in index order, as many as the manifest counts; a failure says what is wrong. */
  ghost predicate IsSound(r: Pulled, m: FileManifest, blobs: Blobs) {
    match r
    case Ok((n, chunks)) => n == m && |chunks| == |m.chunks| && InOrder(chunks) && Elements(chunks) <= blobs.Values
    case Err(e) => e == FrameTooLarge || e == NoReply || (e.Incomplete? && e.got != e.expected == |m.chunks|)
  }

  /** Any directory, any order of reading it: a pull never returns anything but stored chunks, in index order, as
      many as the manifest counts. */
  lemma {:induction false} PullIsSound(m: FileManifest, blobs: Blobs, fileId: FileId, hash: Bytes -> Digest, r: Pulled)
    requires WellAddressed(hash, blobs) && MayPull(m, blobs, fileId, r)
    ensures IsSound(r, m, blobs)
  {
    hide Answered, Unanswered, SendOver, IsSound, Verdict, FetchRun;
    var pages :| FetchRun(pages, m, blobs, fileId) && PullStops(pages, m, blobs, fileId, r);
    FetchRunCollects(pages, m, blobs, fileId, hash);
    VerdictIsSound(Flatten(pages), m, blobs);
  }

  /** `all` lists, in strictly increasing index order, the blobs that come before all others. */
  ghost predicate Leads(all: seq<EncryptedChunk>, blobs: Blobs) {
    && StrictlyInOrder(all) && Elements(all) <= blobs.Values
    && forall c, a :: c in blobs.Values && c !in all && a in all ==> a.index < c.index
  }

  /** A blob that some reading of the directory lists right after `all`. */
  ghost predicate Follows(c: EncryptedChunk, all: seq<EncryptedChunk>, blobs: Blobs) {
    c in blobs.Values && c !in all && forall x :: x in blobs.Values && x !in all ==> c.index <= x.index
  }

  /** The last greedy batch of `all` has no room for any blob that may follow. */
  ghost predicate LastBatchFull(all: seq<EncryptedChunk>, blobs: Blobs) {
    var bs := Batches(all);
    forall c :: bs != [] && Follows(c, all, blobs) ==> Total(bs[|bs| - 1]) + Size(c) > MAX_BATCH_PAYLOAD
  }

  lemma {:induction false} RepresentsLeads(all: seq<EncryptedChunk>, blobs: Blobs)
    requires Represents(all, blobs)
    ensures Leads(all, blobs) && LastBatchFull(all, blobs)
  {
    assert forall c :: c in blobs.Values ==> c in Elements(all);
  }

  lemma {:induction false} LeadingPart(list: seq<EncryptedChunk>, all: seq<EncryptedChunk>, blobs: Blobs)
    returns (n: nat)
    requires InOrder(list) && Elements(list) == blobs.Values && Leads(all, blobs)
    ensures n <= |list| && Elements(list[..n]) == Elements(all)
    ensures n < |list| ==> list[n] !in all
  {
    hide StrictlyInOrder;
    n := 0;
    while n < |list| && list[n] in all
      invariant n <= |list| && forall i :: 0 <= i < n ==> list[i] in all
    {
      n := n + 1;
    }
    assert n < |list| ==> list[n] in Elements(list);
    forall x | x in all ensures x in list[..n] {
      assert x in Elements(all);
      var i :| 0 <= i < |list| && list[i] == x;
      assert i < n;
    }
  }

  lemma {:induction false} FirstBehindFollows(list: seq<EncryptedChunk>, all: seq<EncryptedChunk>, blobs: Blobs)
    requires InOrder(list) && Elements(list) == blobs.Values && all <= list
    requires |all| < |list| && list[|all|] !in all
    ensures Follows(list[|all|], all, blobs)
  {
    assert list[|all|] in Elements(list);
    forall x | x in blobs.Values && x !in all ensures list[|all|].index <= x.index {
      assert x in Elements(list);
      var i :| 0 <= i < |list| && list[i] == x;
      assert i < |all| ==> list[i] == all[i];
    }
  }

  /** Every reading of the directory starts with `all`. */
  lemma {:induction false} LeadersFirst(held: seq<EncryptedChunk>, all: seq<EncryptedChunk>, blobs: Blobs)
    requires IsListing(held, blobs) && Leads(all, blobs)
    ensures all <= SortChunks(held)
    ensures |all| < |SortChunks(held)| ==> Follows(SortChunks(held)[|all|], all, blobs)
  {
    hide SortChunks, Follows;
    var list := SortChunks(held);
    NoDuplicatesCardinality(held);
    DuplicateLosesElement(list);
    var n := LeadingPart(list, all, blobs);
    SortCanonicalChunks(list[..n], all);
    assert InOrder(list[..n]);
    assert list[..n] == all;
    if n < |list| { FirstBehindFollows(list, all, blobs); }
  }

  lemma {:induction false} PageUnique(p: seq<EncryptedChunk>, q: seq<EncryptedChunk>, rest: seq<EncryptedChunk>)
    requires IsPage(p, rest) && IsPage(q, rest)
    ensures p == q
  {
    if |p| < |q| {
      LongerPageOverfull(p, q, rest);
    } else if |q| < |p| {
      LongerPageOverfull(q, p, rest);
    }
  }

  lemma {:induction false} LongerPageOverfull(p: seq<EncryptedChunk>, q: seq<EncryptedChunk>,
      rest: seq<EncryptedChunk>)
    requires IsPage(p, rest) && q <= rest && |p| < |q|
    ensures !Fits(q)
  {
    assert q == [] + p + [rest[|p|]] + q[|p| + 1..];
    OverfullGroup([], p, rest[|p|], q[|p| + 1..]);
  }

  lemma {:induction false} FlattenFrom<T>(ss: seq<seq<T>>, j: nat)
    requires j < |ss|
    ensures Flatten(ss[j..]) == ss[j] + Flatten(ss[j + 1..])
    ensures Flatten(ss) == Flatten(ss[..j]) + (ss[j] + Flatten(ss[j + 1..]))
  {
    SuffixStep(ss, j);
    assert ss == ss[..j] + ss[j..];
    FlattenAppend(ss[..j], ss[j..]);
  }

  lemma {:induction false} PartOf<T>(list: seq<T>, a: seq<T>, b: seq<T>, c: seq<T>)
    requires a + (b + c) <= list
    ensures b <= list[|a|..]
    ensures c != [] ==> |b| < |list[|a|..]| && list[|a|..][|b|] == c[0]
    ensures c == [] && |b| < |list[|a|..]| ==> |a + (b + c)| < |list| && list[|a|..][|b|] == list[|a + (b + c)|]
  {
    assert (a + (b + c))[|a|..] == b + c;
    assert list[|a|..][..|b|] == b;
  }

  /** A greedy batch is a page of whatever starts with the list it is a batch of, if what follows finds no room. */
  lemma {:induction false} BatchIsPage(bs: seq<seq<EncryptedChunk>>, j: nat, list: seq<EncryptedChunk>)
    requires Greedy(bs) && j < |bs| && Flatten(bs) <= list
    requires |Flatten(bs)| < |list| ==> Total(bs[|bs| - 1]) + Size(list[|Flatten(bs)|]) > MAX_BATCH_PAYLOAD
    ensures |Flatten(bs[..j])| <= |list| && IsPage(bs[j], list[|Flatten(bs[..j])|..])
  {
    hide Flatten, Total, Size, Fits;
    var later := Flatten(bs[j + 1..]);
    FlattenFrom(bs, j);
    PartOf(list, Flatten(bs[..j]), bs[j], later);
    if j + 1 < |bs| {
      assert NoRoom(bs[j], bs[j + 1]);
      FlattenFrom(bs, j + 1);
      assert later[0] == bs[j + 1][0];
    } else {
      assert bs[j + 1..] == [];
      FlattenNothing(bs[j + 1..]);
    }
  }

  lemma {:induction false} FlattenNothing<T>(ss: seq<seq<T>>)
    ensures ss == [] ==> Flatten(ss) == []
  {
  }

  /** So, fetched at the end of the batches before it, a batch of `all` comes back as it is. */
  lemma {:induction false} FetchedIsBatch(page: seq<EncryptedChunk>, all: seq<EncryptedChunk>, blobs: Blobs, j: nat)
    requires Leads(all, blobs) && LastBatchFull(all, blobs)
    requires j < |Batches(all)| && IsFetched(page, blobs, |Flatten(Batches(all)[..j])|)
    ensures page == Batches(all)[j]
  {
    hide Batches, Flatten, LastBatchFull, Leads, Total, IsListing, IsPage, Follows, Greedy;
    var bs := Batches(all);
    var k := |Flatten(bs[..j])|;
    BatchesAreGreedy(all);
    var held :| IsListing(held, blobs) && IsPage(page, Skip(SortChunks(held), k));
    LeadersFirst(held, all, blobs);
    NoRoomBehind(all, blobs, SortChunks(held));
    BatchIsPage(bs, j, SortChunks(held));
    PageUnique(page, bs[j], SortChunks(held)[k..]);
  }

  lemma {:induction false} NoRoomBehind(all: seq<EncryptedChunk>, blobs: Blobs, list: seq<EncryptedChunk>)
    requires LastBatchFull(all, blobs) && Batches(all) != []
    requires |all| < |list| ==> Follows(list[|all|], all, blobs)
    ensures var bs := Batches(all);
      |all| < |list| ==> Total(bs[|bs| - 1]) + Size(list[|all|]) > MAX_BATCH_PAYLOAD
  {
  }

  lemma {:induction false} PrefixTooShort(bs: seq<seq<EncryptedChunk>>, n: nat)
    requires n <= |bs| && |Flatten(bs[..n])| < |Flatten(bs)|
    ensures n < |bs|
  {
    assert bs[..|bs|] == bs;
  }

  /** As long as chunks of `all` are missing, the pages received are its first batches. */
  lemma {:induction false} RunIsBatches(pages: seq<seq<EncryptedChunk>>, m: FileManifest, blobs: Blobs, fileId: FileId,
      all: seq<EncryptedChunk>)
    requires Leads(all, blobs) && LastBatchFull(all, blobs) && |all| == |m.chunks| > 0
    requires FetchRun(pages, m, blobs, fileId)
    ensures pages <= Batches(all)
    decreases |pages|
  {
    hide Batches, Flatten, LastBatchFull, Leads, Answerable, SendOver, IsFetched;
    if pages == [] {
    } else {
      var n := |pages| - 1;
      var front, bs := pages[..n], Batches(all);
      RunIsBatches(front, m, blobs, fileId, all);
      assert front == bs[..n];
      BatchesAreGreedy(all);
      PrefixTooShort(bs, n);
      FetchedIsBatch(pages[n], all, blobs, n);
      LastSplit(pages);
      PrefixSnoc(bs, n);
    }
  }

  /** A manifest that counts the leading blobs, with distinct indices and a full last batch: a pull returns exactly them
      if and only if every greedy batch of them can be sent back, and then the pages are those batches. Nothing else is
      a success. If the batches could be sent out, the one failure left is that the client waits for ever. */
  lemma {:induction false} PullOutcome(pages: seq<seq<EncryptedChunk>>, m: FileManifest, blobs: Blobs,
      fileId: FileId, all: seq<EncryptedChunk>, r: Pulled)
    requires Leads(all, blobs) && LastBatchFull(all, blobs) && |all| == |m.chunks| > 0
    requires FetchRun(pages, m, blobs, fileId) && PullStops(pages, m, blobs, fileId, r)
    ensures r == Ok((m, all)) <==> AllAnswerable(fileId, m, all)
    ensures r.Ok? ==> r == Ok((m, all)) && pages == Batches(all)
    ensures r.Err? && AllSendable(fileId, m, all) ==> r == Err(NoReply)
  {
    hide LastBatchFull, PullStops, FetchRun, Batches, Flatten, Greedy, Answerable, SendOver, StoreSize;
    var bs := Batches(all);
    RunIsBatches(pages, m, blobs, fileId, all);
    BatchesAreGreedy(all);
    if |pages| == |bs| {
      assert pages == bs;
      forall j | 0 <= j < |pages| ensures Answerable(fileId, m, pages[j]) {
        RunWasAnswered(pages, m, blobs, fileId, j);
      }
      FinishedPull(pages, m, blobs, fileId, all, r);
    } else {
      UnfinishedPull(pages, m, blobs, fileId, all, r);
    }
  }

  lemma {:induction false} FinishedPull(pages: seq<seq<EncryptedChunk>>, m: FileManifest, blobs: Blobs,
      fileId: FileId, all: seq<EncryptedChunk>, r: Pulled)
    requires PullStops(pages, m, blobs, fileId, r)
    requires InOrder(all) && |all| == |m.chunks| > 0 && Flatten(pages) == all
    ensures r == Ok((m, all))
  {
    hide Flatten;
  }

  lemma {:induction false} UnfinishedPull(pages: seq<seq<EncryptedChunk>>, m: FileManifest, blobs: Blobs,
      fileId: FileId, all: seq<EncryptedChunk>, r: Pulled)
    requires Leads(all, blobs) && LastBatchFull(all, blobs) && |all| == |m.chunks| > 0
    requires PullStops(pages, m, blobs, fileId, r)
    requires pages <= Batches(all) && |pages| < |Batches(all)|
    ensures r.Err? && !AllAnswerable(fileId, m, all)
    ensures AllSendable(fileId, m, all) ==> r == Err(NoReply)
  {
    hide SendOver, StoreSize, FetchSize, Answerable, Batches, Flatten, IsFetched, Leads, LastBatchFull;
    var bs, j, n := Batches(all), |pages|, |Flatten(pages)|;
    assert pages == bs[..j];
    BatchesAreGreedy(all);
    ShorterPrefix(bs, j);
    if SendOver(FetchSize(fileId, n)) != Arrives {
      if Answerable(fileId, m, bs[j]) { AnswerableIsSmall(fileId, m, bs[j]); }
      if AllSendable(fileId, m, all) { SentIsSmall(fileId, m, bs[j]); }
    } else {
      if IsFetched([], blobs, n) { FetchedIsBatch([], all, blobs, j); }
      var page :| IsFetched(page, blobs, n) && !Answerable(fileId, m, page);
      FetchedIsBatch(page, all, blobs, j);
    }
  }

  lemma {:induction false} ShorterPrefix(bs: seq<seq<EncryptedChunk>>, j: nat)
    requires Greedy(bs) && j < |bs|
    ensures |Flatten(bs[..j])| < |Flatten(bs)| && bs[j] != []
  {
    FlattenFrom(bs, j);
  }

  lemma {:induction false} ReadInOrder(blobs: Blobs, list: seq<EncryptedChunk>, n: nat, page: seq<EncryptedChunk>)
    requires IsListing(list, blobs) && InOrder(list) && n <= |list| && IsPage(page, list[n..])
    ensures IsFetched(page, blobs, n)
  {
    assert Skip(SortChunks(list), n) == list[n..];
  }

  lemma {:induction false} RunGrows(pages: seq<seq<EncryptedChunk>>, m: FileManifest, blobs: Blobs, fileId: FileId,
      page: seq<EncryptedChunk>)
    requires FetchRun(pages, m, blobs, fileId) && Unfinished(m, |Flatten(pages)|)
    requires Answered(m, blobs, fileId, |Flatten(pages)|, page) && page != []
    ensures FetchRun(pages + [page], m, blobs, fileId)
  {
    hide Answered;
    DropLast(pages, page);
  }

  /** The ways a pull ends at its next call. */
  lemma {:induction false} StopAt(pages: seq<seq<EncryptedChunk>>, m: FileManifest, blobs: Blobs, fileId: FileId,
      page: seq<EncryptedChunk>) returns (r: Pulled)
    requires Unfinished(m, |Flatten(pages)|) ==> IsFetched(page, blobs, |Flatten(pages)|)
    requires Unfinished(m, |Flatten(pages)|) && Answered(m, blobs, fileId, |Flatten(pages)|, page) ==> page == []
    ensures PullStops(pages, m, blobs, fileId, r)
    ensures r.Ok? ==> r == Verdict(Flatten(pages), m)
  {
    hide IsFetched, Answerable, SendOver, Flatten;
    var n := |Flatten(pages)|;
    var sent := SendOver(FetchSize(fileId, n));
    if !Unfinished(m, n) {
      r := Verdict(Flatten(pages), m);
    } else if sent != Arrives {
      r := Err(Undelivered(sent));
    } else if !Answerable(fileId, m, page) {
      r := Err(NoReply);
    } else {
      r := Verdict(Flatten(pages), m);
    }
  }

  lemma {:induction false} PageIsPrefix(page: seq<EncryptedChunk>, rest: seq<EncryptedChunk>)
    requires IsPage(page, rest)
    ensures |page| <= |rest|
  {
  }

  /** Along any sorted listing of the directory, every fetch reading it in that order, a pull comes to an end. */
  lemma {:induction false} PullAlong(m: FileManifest, blobs: Blobs, fileId: FileId, list: seq<EncryptedChunk>)
    returns (pages: seq<seq<EncryptedChunk>>, r: Pulled)
    requires IsListing(list, blobs) && InOrder(list)
    ensures FetchRun(pages, m, blobs, fileId) && PullStops(pages, m, blobs, fileId, r)
    ensures PagesOf(pages, Flatten(pages), list)
    ensures r.Ok? ==> r == Verdict(Flatten(pages), m)
  {
    hide Answered, IsFetched, IsPage, IsListing, InOrder, PullStops, Verdict;
    pages := [];
    var n := 0;
    SuffixEnds(list);
    var page := PageExists(list[n..]);
    ReadInOrder(blobs, list, 0, page);
    while Unfinished(m, n) && Answered(m, blobs, fileId, n, page) && page != []
      invariant n <= |list| && |Flatten(pages)| == n && PagesOf(pages, Flatten(pages), list)
      invariant FetchRun(pages, m, blobs, fileId)
      invariant IsPage(page, list[n..]) && IsFetched(page, blobs, n)
      decreases |list| - n
    {
      FlattenSnoc(pages, page);
      RunGrows(pages, m, blobs, fileId, page);
      PageIsPrefix(page, list[n..]);
      NextPage(pages, Flatten(pages), list, page);
      pages := pages + [page];
      n := n + |page|;
      page := PageExists(list[n..]);
      ReadInOrder(blobs, list, n, page);
    }
    r := StopAt(pages, m, blobs, fileId, page);
  }
}

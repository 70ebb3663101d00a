/** Whole transfers: what arrives, in any order and with any damage, against what was sent. */
module TransferRuns {
  import opened Base
  import opened Manifests
  import opened Files
  import opened Receiver
  import opened Sorting

  function Run(hash: Bytes -> Digest, d: Disk, arrivals: seq<Chunk>): (r: Disk)
    requires ValidDisk(hash, d)
    ensures ValidDisk(hash, r) && r.manifest == d.manifest
  {
    if arrivals == [] then d
    else
      var n := |arrivals| - 1;
      Received(hash, Run(hash, d, arrivals[..n]), arrivals[n])
  }

  /** A completed transfer has its output file on disk. */
  ghost predicate Built(d: Disk, content: Bytes) {
    d.state.Some? && Complete(d.state.value) ==> d.output == Some(content)
  }

  /** A complete set of indices, sorted, counts through the whole file. */
  lemma {:induction false} CompleteSorts(s: TransferState)
    requires WellFormed(s) && Complete(s)
    ensures SortIndices(s.verified) == Upto(0, |s.verified|)
  {
    var n := |s.verified|;
    CompleteIffNothingMissing(s);
    forall i ensures i in s.verified <==> i in Upto(0, n) {
      if i in s.verified {
        var k :| 0 <= k < n && s.verified[k] == i;
        assert Upto(0, n)[i] == i;
      }
    }
    SortCanonical(NoGreater, s.verified, Upto(0, n));
  }

  /** Every chunk file holds the data of the original chunk. */
  ghost predicate PartsAre(d: Disk, chunks: seq<Chunk>) {
    forall i :: 0 <= i < |chunks| ==> i in d.parts && d.parts[i] == chunks[i].data
  }

  lemma {:induction false} PartsAreOriginal(hash: Bytes -> Digest, m: FileManifest, chunks: seq<Chunk>, d: Disk)
    requires Injective(hash) && Authentic(hash, m, chunks) && ValidDisk(hash, d) && d.manifest == Some(m)
    requires forall i :: 0 <= i < |chunks| ==> i in d.parts
    ensures PartsAre(d, chunks)
  {
    forall i | 0 <= i < |chunks| ensures d.parts[i] == chunks[i].data {
      assert hash(d.parts[i]) == hash(chunks[i].data);
    }
  }

  lemma {:induction false} RebuildFrom(hash: Bytes -> Digest, m: FileManifest, chunks: seq<Chunk>, d: Disk, k: nat)
    requires Authentic(hash, m, chunks) && k <= |chunks| && PartsAre(d, chunks)
    requires d.output == Some(Flatten(Datas(chunks[..k])))
    ensures RebuildResult(hash, m, d, Upto(k, |chunks|)) ==
      if m.totalSize == |Flatten(Datas(chunks))| then Ok(()) else Err(SizeMismatch)
    ensures LastOr(RebuildWrites(hash, m, d, Upto(k, |chunks|)), d).output == Some(Flatten(Datas(chunks)))
    decreases |chunks| - k
  {
    var n := |chunks|;
    if k == n {
      assert chunks[..n] == chunks;
    } else {
      var next := d.(output := Some(d.output.value + d.parts[k]));
      DatasSnoc(chunks[..k], chunks[k]);
      PrefixSnoc(chunks, k);
      RebuildFrom(hash, m, chunks, next, k + 1);
      var tail := Upto(k + 1, n);
      assert Upto(k, n) == [k] + tail && Upto(k, n)[1..] == tail;
      var rest := RebuildWrites(hash, m, next, tail);
      assert RebuildWrites(hash, m, d, Upto(k, n)) == [next] + rest;
    }
  }

  /** The arrival that completes the set rebuilds the whole content, in order, and checks it against the recorded
      size. */
  lemma {:induction false} CompletionBuilds(hash: Bytes -> Digest, m: FileManifest, chunks: seq<Chunk>, saved: Disk)
    requires Injective(hash) && Authentic(hash, m, chunks) && chunks != []
    requires ValidDisk(hash, saved) && saved.manifest == Some(m) && saved.state.Some? && Complete(saved.state.value)
    ensures var created, indices := saved.(output := Some([])), SortIndices(saved.state.value.verified);
      var ws := RebuildWrites(hash, m, created, indices);
      var content := Flatten(Datas(chunks));
      && RebuildResult(hash, m, created, indices) == (if m.totalSize == |content| then Ok(()) else Err(SizeMismatch))
      && ws != [] && ws[|ws| - 1] == saved.(output := Some(content))
  {
    CompleteIffNothingMissing(saved.state.value);
    CompleteSorts(saved.state.value);
    var created := saved.(output := Some([]));
    assert chunks[..0] == [];
    PartsAreOriginal(hash, m, chunks, saved);
    RebuildFrom(hash, m, chunks, created, 0);
    RebuildKeepsRest(hash, m, created, Upto(0, |chunks|));
    var ws := RebuildWrites(hash, m, created, Upto(0, |chunks|));
    assert ws != [] by {
      assert Upto(0, |chunks|) != [];
      assert hash(created.parts[0]) == m.chunks[0];
    }
    assert ws[|ws| - 1] in ws;
  }

  /** The disk once a verified chunk and the state recording it are both written. */
  function Saved(d: Disk, m: FileManifest, c: Chunk): Disk {
    d.(parts := d.parts[c.index := c.data], state := Some(MarkVerified(Resume(d, m), c.index)))
  }

  lemma {:induction false} SavedIsValid(hash: Bytes -> Digest, d: Disk, m: FileManifest, c: Chunk)
    requires ValidDisk(hash, d) && d.manifest == Some(m) && VerifyChunk(hash, m, c).Ok?
    requires c.index !in Resume(d, m).verified
    ensures ValidDisk(hash, Saved(d, m, c))
  {
    EveryCrashPointValid(hash, d, c);
    assert ReceiveWrites(hash, d, c)[1] == Saved(d, m, c);
  }

  /** The last missing chunk completes the file; a recorded size that is not its size is reported. */
  lemma {:induction false} NewChunkCompletes(hash: Bytes -> Digest, m: FileManifest, chunks: seq<Chunk>,
      d: Disk, c: Chunk)
    requires Injective(hash) && Authentic(hash, m, chunks)
    requires ValidDisk(hash, d) && d.manifest == Some(m) && VerifyChunk(hash, m, c).Ok?
    requires c.index !in Resume(d, m).verified && Complete(Saved(d, m, c).state.value)
    ensures var content := Flatten(Datas(chunks));
      && Received(hash, d, c) == Saved(d, m, c).(output := Some(content))
      && ReceiveResult(hash, d, c) == if m.totalSize == |content| then Ok(true) else Err(SizeMismatch)
  {
    SavedIsValid(hash, d, m, c);
    var saved := Saved(d, m, c);
    CompletionBuilds(hash, m, chunks, saved);
    var created := saved.(output := Some([]));
    var ws := RebuildWrites(hash, m, created, SortIndices(saved.state.value.verified));
    var stored := d.(parts := d.parts[c.index := c.data]);
    assert ReceiveWrites(hash, d, c) == [stored, saved, created] + ws;
    LastOfAppend([stored, saved, created], ws, d);
  }

  /** One arrival at a receiver that is up to date: the recorded set grows by exactly an original chunk, the
      report is complete iff everything is recorded, the output is then the content, and rebuilding cannot fail. */
  lemma {:induction false} ReceiveStep(hash: Bytes -> Digest, m: FileManifest, chunks: seq<Chunk>,
      content: Bytes, d: Disk, c: Chunk)
    requires Injective(hash) && Describes(hash, m, chunks, content) && chunks != []
    requires ValidDisk(hash, d) && d.manifest == Some(m) && Built(d, content)
    ensures Built(Received(hash, d, c), content)
    ensures Resume(Received(hash, d, c), m) == if c in chunks then MarkVerified(Resume(d, m), c.index) else Resume(d, m)
    ensures ReceiveResult(hash, d, c) ==
      if c in chunks then Ok(Complete(Resume(Received(hash, d, c), m))) else Err(VerifyChunk(hash, m, c).error)
  {
    VerifiedIsOriginal(hash, m, chunks, c);
    if c in chunks && c.index !in Resume(d, m).verified && Complete(Saved(d, m, c).state.value) {
      NewChunkCompletes(hash, m, chunks, d, c);
    }
  }

  lemma {:induction false} LastOfAppend<T>(a: seq<T>, b: seq<T>, default: T)
    requires a != []
    ensures LastOr(a + b, default) == LastOr(b, a[|a| - 1])
  {
  }

  /** The disk after a manifest was announced to a fresh receiver. */
  function Announced(m: FileManifest): Disk {
    FRESH_DISK.(manifest := Some(m))
  }

  /** After any arrivals, recorded are exactly the original chunks among them, and a complete set is built. */
  lemma {:induction false} RunRecords(hash: Bytes -> Digest, m: FileManifest, chunks: seq<Chunk>,
      content: Bytes, arrivals: seq<Chunk>)
    requires Injective(hash) && Describes(hash, m, chunks, content) && chunks != []
    ensures var d := Run(hash, Announced(m), arrivals);
      && Built(d, content)
      && forall i :: 0 <= i < |chunks| ==> (i in Resume(d, m).verified <==> chunks[i] in arrivals)
  {
    if arrivals != [] {
      var n := |arrivals| - 1;
      RunRecords(hash, m, chunks, content, arrivals[..n]);
      ReceiveStep(hash, m, chunks, content, Run(hash, Announced(m), arrivals[..n]), arrivals[n]);
      LastSplit(arrivals);
    }
  }

  lemma {:induction false} EmptyFileHasNoChunks(chunks: seq<Chunk>)
    ensures chunks == [] ==> Flatten(Datas(chunks)) == []
  {
  }

  ghost predicate AllArrived(chunks: seq<Chunk>, arrivals: seq<Chunk>) {
    forall i :: 0 <= i < |chunks| ==> chunks[i] in arrivals
  }

  lemma {:induction false} RunCompletes(hash: Bytes -> Digest, m: FileManifest, chunks: seq<Chunk>,
      content: Bytes, arrivals: seq<Chunk>)
    requires Injective(hash) && Describes(hash, m, chunks, content) && chunks != []
    ensures Complete(Resume(Run(hash, Announced(m), arrivals), m)) <==> AllArrived(chunks, arrivals)
    ensures AllArrived(chunks, arrivals) ==> Run(hash, Announced(m), arrivals).output == Some(content)
  {
    RunRecords(hash, m, chunks, content, arrivals);
    CompleteIffNothingMissing(Resume(Run(hash, Announced(m), arrivals), m));
    if AllArrived(chunks, arrivals) {
      assert chunks[0] in arrivals;
    }
  }

  /** Round trip: whatever arrives, in whatever order, repeated or damaged, an arrival is reported complete exactly
      when it is a chunk of the file and every chunk has by then arrived, and the output then equals the content.
      The only failures are arrivals that are not chunks of the file; the size check never fails. */
  lemma {:induction false} TransferRoundTrip(hash: Bytes -> Digest, m: FileManifest, chunks: seq<Chunk>,
      content: Bytes, arrivals: seq<Chunk>, c: Chunk)
    requires Injective(hash) && Describes(hash, m, chunks, content) && content != []
    ensures var r := ReceiveResult(hash, Run(hash, Announced(m), arrivals), c);
      && (r == Ok(true) <==> c in chunks && AllArrived(chunks, arrivals + [c]))
      && (r == Ok(true) ==> Run(hash, Announced(m), arrivals + [c]).output == Some(content))
      && (c !in chunks ==> r == Err(if c.index >= |chunks| then InvalidIndex else HashMismatch(c.index)))
      && (c in chunks ==> r.Ok?)
  {
    hide ReceiveWrites, ReceiveResult, Received, Complete;
    EmptyFileHasNoChunks(chunks);
    var all := arrivals + [c];
    RunRecords(hash, m, chunks, content, arrivals);
    RunCompletes(hash, m, chunks, content, all);
    assert all[..|arrivals|] == arrivals;
    ReceiveStep(hash, m, chunks, content, Run(hash, Announced(m), arrivals), c);
  }

  /** A delivery that ran to its end, or one cut short by a crash right after its k-th write. */
  datatype Event = Deliver(c: Chunk) | Crash(c: Chunk, k: nat)

  function AfterEvent(hash: Bytes -> Digest, d: Disk, e: Event): (r: Disk)
    ensures r.manifest == d.manifest
    ensures ValidDisk(hash, d) ==> ValidDisk(hash, r)
  {
    ManifestStays(hash, d, e.c);
    assert ValidDisk(hash, d) ==> forall w :: w in ReceiveWrites(hash, d, e.c) ==> ValidDisk(hash, w) by {
      if ValidDisk(hash, d) { EveryCrashPointValid(hash, d, e.c); }
    }
    match e
    case Deliver(c) => Received(hash, d, c)
    case Crash(c, k) =>
      var ws := ReceiveWrites(hash, d, c);
      if k == 0 then d else if k <= |ws| then ws[k - 1] else LastOr(ws, d)
  }

  /** Receivers that crash and restart at arbitrary points keep a valid disk: recorded indices are distinct and in
      range, each has a chunk file hashing to its manifest entry, and completeness means nothing is missing. */
  function CrashRun(hash: Bytes -> Digest, d: Disk, events: seq<Event>): (r: Disk)
    requires ValidDisk(hash, d)
    ensures ValidDisk(hash, r) && r.manifest == d.manifest
    decreases |events|
  {
    if events == [] then d else CrashRun(hash, AfterEvent(hash, d, events[0]), events[1..])
  }

  lemma {:induction false} CrashRunInvariant(hash: Bytes -> Digest, m: FileManifest, events: seq<Event>)
    requires |m.chunks| < 0x1_0000_0000
    ensures var d := CrashRun(hash, Announced(m), events);
      var s := Resume(d, m);
      && NoDuplicates(s.verified)
      && (forall i :: i in s.verified ==> i < |m.chunks| && i in d.parts && hash(d.parts[i]) == m.chunks[i])
      && (forall i :: i in Missing(s) <==> 0 <= i < |m.chunks| && i !in s.verified)
      && (Complete(s) <==> Missing(s) == [])
  {
    var s := Resume(CrashRun(hash, Announced(m), events), m);
    MissingIsComplement(s, 0);
    CompleteIffNothingMissing(s);
  }

  /** Once the recorded set is complete nothing rebuilds the output again: a crash between saving the last state
      and finishing the output is permanent, although later arrivals are still reported complete. */
  lemma {:induction false} CompleteIsNeverRebuilt(hash: Bytes -> Digest, d: Disk, arrivals: seq<Chunk>)
    requires ValidDisk(hash, d) && d.state.Some? && Complete(d.state.value)
    ensures var d' := Run(hash, d, arrivals);
      && d'.output == d.output && d'.state == d.state
      && forall c :: VerifyChunk(hash, d.manifest.value, c).Ok? ==> ReceiveResult(hash, d', c) == Ok(true)
  {
    var d' := Run(hash, d, arrivals);
    if arrivals != [] {
      CompleteIsNeverRebuilt(hash, d, arrivals[..|arrivals| - 1]);
    }
    CompleteIffNothingMissing(d.state.value);
    assert forall c: Chunk :: c.index < |d.manifest.value.chunks| ==> c.index in d.state.value.verified;
  }

  /** Exactly when a complete report can be trusted on a disk that may have crashed before: the arriving chunk was
      not recorded yet, or the output is already right. */
  lemma {:induction false} CompleteReportTrusted(hash: Bytes -> Digest, m: FileManifest, chunks: seq<Chunk>,
      content: Bytes, d: Disk, c: Chunk)
    requires Injective(hash) && Describes(hash, m, chunks, content) && chunks != []
    requires ValidDisk(hash, d) && d.manifest == Some(m)
    requires ReceiveResult(hash, d, c) == Ok(true)
    ensures Received(hash, d, c).output == Some(content) <==>
      c.index !in Resume(d, m).verified || d.output == Some(content)
  {
    if c.index !in Resume(d, m).verified {
      if d.state.Some? {
        VerifiedIsOriginal(hash, m, chunks, c);
        CompleteIffNothingMissing(d.state.value);
      }
      assert Built(d, content);
      ReceiveStep(hash, m, chunks, content, d, c);
    }
  }

  /** Until every chunk has arrived there is no output file. */
  lemma {:induction false} NoOutputBeforeComplete(hash: Bytes -> Digest, m: FileManifest, chunks: seq<Chunk>,
      content: Bytes, arrivals: seq<Chunk>)
    requires Injective(hash) && Describes(hash, m, chunks, content) && chunks != []
    requires !AllArrived(chunks, arrivals)
    ensures Run(hash, Announced(m), arrivals).output == None
  {
    if arrivals == [] {
    } else {
      var n := |arrivals| - 1;
      LastSplit(arrivals);
      assert !AllArrived(chunks, arrivals[..n]);
      NoOutputBeforeComplete(hash, m, chunks, content, arrivals[..n]);
      RunCompletes(hash, m, chunks, content, arrivals);
      OnlyCompletionWritesOutput(hash, Run(hash, Announced(m), arrivals[..n]), m, arrivals[n]);
    }
  }

  lemma {:induction false} OnlyCompletionWritesOutput(hash: Bytes -> Digest, d: Disk, m: FileManifest, c: Chunk)
    requires ValidDisk(hash, d) && d.manifest == Some(m)
    requires !Complete(Resume(Received(hash, d, c), m))
    ensures Received(hash, d, c).output == d.output
  {
    if VerifyChunk(hash, m, c).Ok? && c.index !in Resume(d, m).verified {
      var saved := Saved(d, m, c);
      if Complete(saved.state.value) {
        SavedIsValid(hash, d, m, c);
        var created := saved.(output := Some([]));
        var indices := SortIndices(saved.state.value.verified);
        RebuildKeepsRest(hash, m, created, indices);
        LastOfAppend([d.(parts := d.parts[c.index := c.data]), saved, created],
                     RebuildWrites(hash, m, created, indices), d);
        assert false;
      }
    }
  }

  function Deliveries(arrivals: seq<Chunk>): seq<Event> {
    if arrivals == [] then [] else Deliveries(arrivals[..|arrivals| - 1]) + [Deliver(arrivals[|arrivals| - 1])]
  }

  lemma {:induction false} CrashRunAppend(hash: Bytes -> Digest, d: Disk, a: seq<Event>, b: seq<Event>)
    requires ValidDisk(hash, d)
    ensures CrashRun(hash, d, a + b) == CrashRun(hash, CrashRun(hash, d, a), b)
    decreases |a|
  {
    if a == [] {
      assert a + b == b;
    } else {
      assert (a + b)[1..] == a[1..] + b;
      CrashRunAppend(hash, AfterEvent(hash, d, a[0]), a[1..], b);
    }
  }

  /** Without crashes the two kinds of run are the same. */
  lemma {:induction false} DeliveriesRun(hash: Bytes -> Digest, d: Disk, arrivals: seq<Chunk>)
    requires ValidDisk(hash, d)
    ensures CrashRun(hash, d, Deliveries(arrivals)) == Run(hash, d, arrivals)
  {
    if arrivals == [] {
    } else {
      var n := |arrivals| - 1;
      DeliveriesRun(hash, d, arrivals[..n]);
      CrashRunAppend(hash, d, Deliveries(arrivals[..n]), [Deliver(arrivals[n])]);
    }
  }

  lemma {:induction false} OneMissing(s: seq<U32>, i: U32)
    requires NoDuplicates(s) && forall x :: x in s <==> x == i
    ensures s == [i]
  {
    NoDuplicatesCardinality(s);
    assert Elements(s) == {i};
    assert s[0] in s;
  }

  /** The last missing chunk of any file arrives and the receiver crashes right after saving its state: the set is
      complete, and the output is what it was before. */
  lemma {:induction false} CrashBeforeRebuild(hash: Bytes -> Digest, m: FileManifest, chunks: seq<Chunk>,
      d: Disk, c: Chunk)
    requires Authentic(hash, m, chunks) && c in chunks
    requires ValidDisk(hash, d) && d.manifest == Some(m)
    requires Missing(Resume(d, m)) == [c.index]
    ensures var d' := AfterEvent(hash, d, Crash(c, 2));
      d'.state.Some? && Complete(d'.state.value) && d'.output == d.output
  {
    var s := Resume(d, m);
    MissingIsComplement(s, 0);
    assert c.index in Missing(s);
    CompleteIffNothingMissing(s);
  }

  /** A run of any nonempty file on which the promise fails: every chunk but one is delivered, in any order and among
      anything else, and the receiver crashes right after saving the state that the last one completes. From then on,
      whatever arrives, every chunk of the file is reported complete, and there is no output file. */
  lemma {:induction false} CrashedForEver(hash: Bytes -> Digest, m: FileManifest, chunks: seq<Chunk>, content: Bytes,
      arrivals: seq<Chunk>, c: Chunk, later: seq<Chunk>)
    requires Injective(hash) && Describes(hash, m, chunks, content) && content != []
    requires c in chunks && c !in arrivals && forall x :: x in chunks && x != c ==> x in arrivals
    ensures var d := CrashRun(hash, Announced(m), Deliveries(arrivals) + [Crash(c, 2)] + Deliveries(later));
      && d.state.Some? && Complete(d.state.value) && d.output == None
      && forall x :: x in chunks ==> ReceiveResult(hash, d, x) == Ok(true) && Received(hash, d, x).output == None
  {
    var start, crash := Announced(m), [Crash(c, 2)];
    var before := Run(hash, start, arrivals);
    var crashed := AfterEvent(hash, before, Crash(c, 2));
    CrashRunAppend(hash, start, Deliveries(arrivals) + crash, Deliveries(later));
    CrashRunAppend(hash, start, Deliveries(arrivals), crash);
    DeliveriesRun(hash, start, arrivals);
    DeliveriesRun(hash, crashed, later);

    OnlyOneMissing(hash, m, chunks, content, arrivals, c);
    CrashBeforeRebuild(hash, m, chunks, before, c);
    CompleteIsNeverRebuilt(hash, crashed, later);
    forall x | x in chunks
      ensures var d := Run(hash, crashed, later);
        ReceiveResult(hash, d, x) == Ok(true) && Received(hash, d, x).output == None
    {
      VerifiedIsOriginal(hash, m, chunks, x);
      CompleteIsNeverRebuilt(hash, Run(hash, crashed, later), [x]);
    }
  }

  lemma {:induction false} OnlyOneMissing(hash: Bytes -> Digest, m: FileManifest, chunks: seq<Chunk>, content: Bytes,
      arrivals: seq<Chunk>, c: Chunk)
    requires Injective(hash) && Describes(hash, m, chunks, content)
    requires c in chunks && c !in arrivals && forall x :: x in chunks && x != c ==> x in arrivals
    ensures var d := Run(hash, Announced(m), arrivals);
      Missing(Resume(d, m)) == [c.index] && d.output == None
  {
    var s := Resume(Run(hash, Announced(m), arrivals), m);
    RunRecords(hash, m, chunks, content, arrivals);
    NoOutputBeforeComplete(hash, m, chunks, content, arrivals);
    MissingIsComplement(s, 0);
    forall i ensures i in Missing(s) <==> i == c.index {
      if 0 <= i < |chunks| { assert chunks[i] in arrivals <==> chunks[i] != c; }
    }
    OneMissing(Missing(s), c.index);
  }

  // Which event completed the set decides whether the file is there.

  ghost predicate IsComplete(hash: Bytes -> Digest, m: FileManifest, events: seq<Event>)
    requires |m.chunks| < 0x1_0000_0000
  {
    Complete(Resume(CrashRun(hash, Announced(m), events), m))
  }

  /** Event j is the one whose state completed the recorded set. */
  ghost predicate CompletedBy(hash: Bytes -> Digest, m: FileManifest, events: seq<Event>, j: nat)
    requires |m.chunks| < 0x1_0000_0000
  {
    j < |events| && !IsComplete(hash, m, events[..j]) && IsComplete(hash, m, events[..j + 1])
  }

  /** The delivery was not cut short: it was no crash, or the crash came after its last write. */
  predicate RanToItsEnd(hash: Bytes -> Digest, d: Disk, e: Event)
    requires ValidDisk(hash, d)
  {
    e.Deliver? || e.k >= |ReceiveWrites(hash, d, e.c)|
  }

  lemma {:induction false} CrashRunSnoc(hash: Bytes -> Digest, d: Disk, events: seq<Event>)
    requires ValidDisk(hash, d) && events != []
    ensures var n := |events| - 1;
      CrashRun(hash, d, events) == AfterEvent(hash, CrashRun(hash, d, events[..n]), events[n])
  {
    var n := |events| - 1;
    LastSplit(events);
    CrashRunAppend(hash, d, events[..n], [events[n]]);
  }

  /** What an event can do to an incomplete disk: leave it incomplete and without touching the output, or complete it by
      a chunk that was missing. */
  lemma {:induction false} EventOnIncomplete(hash: Bytes -> Digest, m: FileManifest, d: Disk, e: Event)
    requires ValidDisk(hash, d) && d.manifest == Some(m) && !Complete(Resume(d, m))
    ensures var d' := AfterEvent(hash, d, e);
      if !Complete(Resume(d', m)) then d'.output == d.output
      else
        && VerifyChunk(hash, m, e.c).Ok? && e.c.index !in Resume(d, m).verified
        && Complete(Saved(d, m, e.c).state.value) && (e.Crash? ==> e.k >= 2)
  {
    var c := e.c;
    if VerifyChunk(hash, m, c).Ok? && c.index !in Resume(d, m).verified {
      var saved := Saved(d, m, c);
      SavedIsValid(hash, d, m, c);
      if Complete(saved.state.value) {
        var created := saved.(output := Some([]));
        var indices := SortIndices(saved.state.value.verified);
        var ws := RebuildWrites(hash, m, created, indices);
        RebuildKeepsRest(hash, m, created, indices);
        assert ReceiveWrites(hash, d, c) == [d.(parts := d.parts[c.index := c.data]), saved, created] + ws;
        LastOfAppend([d.(parts := d.parts[c.index := c.data]), saved, created], ws, d);
      }
    }
  }

  lemma {:induction false} EventOnComplete(hash: Bytes -> Digest, m: FileManifest, d: Disk, e: Event)
    requires ValidDisk(hash, d) && d.manifest == Some(m) && Complete(Resume(d, m)) && m.chunks != []
    ensures AfterEvent(hash, d, e).output == d.output && Complete(Resume(AfterEvent(hash, d, e), m))
  {
    CompleteIffNothingMissing(d.state.value);
  }

  /** Each append of the rebuilding loop adds the next chunk; before the last one the content is not all there. */
  lemma {:induction false} RebuildIsGradual(hash: Bytes -> Digest, m: FileManifest, chunks: seq<Chunk>, d: Disk, k: nat,
      i: nat)
    requires Authentic(hash, m, chunks) && k <= |chunks| && PartsAre(d, chunks)
    requires d.output == Some(Flatten(Datas(chunks[..k])))
    requires forall x :: x in chunks ==> x.data != []
    ensures var ws := RebuildWrites(hash, m, d, Upto(k, |chunks|));
      && |ws| == |chunks| - k
      && (i + 1 < |ws| ==> ws[i].output.Some? && |ws[i].output.value| < |Flatten(Datas(chunks))|)
    decreases |chunks| - k
  {
    var n := |chunks|;
    if k < n {
      var next := d.(output := Some(d.output.value + d.parts[k]));
      DatasSnoc(chunks[..k], chunks[k]);
      PrefixSnoc(chunks, k);
      RebuildIsGradual(hash, m, chunks, next, k + 1, if i == 0 then 0 else i - 1);
      var tail := Upto(k + 1, n);
      assert Upto(k, n) == [k] + tail && Upto(k, n)[1..] == tail;
      assert RebuildWrites(hash, m, d, Upto(k, n)) == [next] + RebuildWrites(hash, m, next, tail);
      if k + 1 < n { PrefixIsShorter(chunks, k + 1); }
    }
  }

  lemma {:induction false} PrefixIsShorter(chunks: seq<Chunk>, k: nat)
    requires k < |chunks| && forall x :: x in chunks ==> x.data != []
    ensures |Flatten(Datas(chunks[..k]))| < |Flatten(Datas(chunks))|
  {
    assert Datas(chunks) == Datas(chunks[..k]) + Datas(chunks[k..]);
    FlattenAppend(Datas(chunks[..k]), Datas(chunks[k..]));
    assert Datas(chunks[k..])[0] == chunks[k].data && chunks[k] in chunks;
  }

  /** A crash after saving the last state and before the last append leaves less than the content. */
  lemma {:induction false} CutShort(hash: Bytes -> Digest, m: FileManifest, chunks: seq<Chunk>, content: Bytes,
      d: Disk, c: Chunk, k: nat)
    requires Injective(hash) && Describes(hash, m, chunks, content) && content != []
    requires ValidDisk(hash, d) && d.manifest == Some(m) && d.output == None
    requires VerifyChunk(hash, m, c).Ok? && c.index !in Resume(d, m).verified && Complete(Saved(d, m, c).state.value)
    requires 2 <= k < |ReceiveWrites(hash, d, c)|
    ensures ReceiveWrites(hash, d, c)[k - 1].output != Some(content)
  {
    hide RebuildWrites, RebuildResult, MissingFrom;
    var saved := Saved(d, m, c);
    SavedIsValid(hash, d, m, c);
    CompleteSorts(saved.state.value);
    CompleteIffNothingMissing(saved.state.value);
    PartsAreOriginal(hash, m, chunks, saved);
    var created := saved.(output := Some([]));
    var ws := RebuildWrites(hash, m, created, SortIndices(saved.state.value.verified));
    assert ReceiveWrites(hash, d, c) == [d.(parts := d.parts[c.index := c.data]), saved, created] + ws;
    assert chunks[..0] == [] && Flatten(Datas(chunks[..0])) == [];
    RebuildIsGradual(hash, m, chunks, created, 0, if k >= 4 then k - 4 else 0);
  }

  /** The event that completes the set leaves the content behind exactly when it ran to its end. */
  lemma {:induction false} CompletingEvent(hash: Bytes -> Digest, m: FileManifest, chunks: seq<Chunk>, content: Bytes,
      d: Disk, e: Event)
    requires Injective(hash) && Describes(hash, m, chunks, content) && content != []
    requires ValidDisk(hash, d) && d.manifest == Some(m) && d.output == None
    requires !Complete(Resume(d, m)) && Complete(Resume(AfterEvent(hash, d, e), m))
    ensures AfterEvent(hash, d, e).output == Some(content) <==> RanToItsEnd(hash, d, e)
  {
    hide ReceiveWrites, ReceiveResult, ValidDisk, VerifyChunk;
    EventOnIncomplete(hash, m, d, e);
    NewChunkCompletes(hash, m, chunks, d, e.c);
    if e.Crash? && e.k < |ReceiveWrites(hash, d, e.c)| {
      CutShort(hash, m, chunks, content, d, e.c, e.k);
    }
  }

  /** In any run, crashes included, there is no output before the set is complete. */
  lemma {:induction false} NoOutputWhileIncomplete(hash: Bytes -> Digest, m: FileManifest, events: seq<Event>)
    requires |m.chunks| < 0x1_0000_0000 && m.chunks != [] && !IsComplete(hash, m, events)
    ensures CrashRun(hash, Announced(m), events).output == None
  {
    hide AfterEvent;
    if events == [] {
    } else {
      var n := |events| - 1;
      var before := CrashRun(hash, Announced(m), events[..n]);
      CrashRunSnoc(hash, Announced(m), events);
      if IsComplete(hash, m, events[..n]) {
        EventOnComplete(hash, m, before, events[n]);
      } else {
        NoOutputWhileIncomplete(hash, m, events[..n]);
        EventOnIncomplete(hash, m, before, events[n]);
      }
    }
  }

  /** In any complete run, crashes included, the output is the content exactly when the event that completed the set ran
      to its end, whatever happened since. */
  lemma {:induction false} CompletedOutputIff(hash: Bytes -> Digest, m: FileManifest, chunks: seq<Chunk>,
      content: Bytes, events: seq<Event>) returns (j: nat)
    requires Injective(hash) && Describes(hash, m, chunks, content) && content != []
    requires IsComplete(hash, m, events)
    ensures CompletedBy(hash, m, events, j)
    ensures CrashRun(hash, Announced(m), events).output == Some(content) <==>
      RanToItsEnd(hash, CrashRun(hash, Announced(m), events[..j]), events[j])
  {
    hide AfterEvent, RanToItsEnd;
    EmptyFileHasNoChunks(chunks);
    assert !IsComplete(hash, m, []);
    var n := |events| - 1;
    var front, e := events[..n], events[n];
    var before := CrashRun(hash, Announced(m), front);
    CrashRunSnoc(hash, Announced(m), events);
    if IsComplete(hash, m, front) {
      j := CompletedOutputIff(hash, m, chunks, content, front);
      EventOnComplete(hash, m, before, e);
      assert front[..j] == events[..j] && front[..j + 1] == events[..j + 1];
    } else {
      j := n;
      NoOutputWhileIncomplete(hash, m, front);
      assert events[..n + 1] == events;
      CompletingEvent(hash, m, chunks, content, before, e);
    }
  }

  /** So a complete report can be trusted, on any run, exactly when the event that completed the set ran to its end, be
      it an earlier one or the reported arrival itself. */
  lemma {:induction false} ReportTrustedIff(hash: Bytes -> Digest, m: FileManifest, chunks: seq<Chunk>,
      content: Bytes, events: seq<Event>, c: Chunk) returns (j: nat)
    requires Injective(hash) && Describes(hash, m, chunks, content) && content != []
    requires ReceiveResult(hash, CrashRun(hash, Announced(m), events), c) == Ok(true)
    ensures var all := events + [Deliver(c)];
      && CompletedBy(hash, m, all, j)
      && (CrashRun(hash, Announced(m), all).output == Some(content) <==>
            RanToItsEnd(hash, CrashRun(hash, Announced(m), all[..j]), all[j]))
  {
    var d, all := CrashRun(hash, Announced(m), events), events + [Deliver(c)];
    CrashRunSnoc(hash, Announced(m), all);
    DropLast(events, Deliver(c));
    CompleteAfterReport(hash, m, d, c);
    j := CompletedOutputIff(hash, m, chunks, content, all);
  }

  lemma {:induction false} CompleteAfterReport(hash: Bytes -> Digest, m: FileManifest, d: Disk, c: Chunk)
    requires ValidDisk(hash, d) && d.manifest == Some(m) && ReceiveResult(hash, d, c) == Ok(true)
    ensures Complete(Resume(Received(hash, d, c), m))
  {
    if c.index !in Resume(d, m).verified {
      var saved := Saved(d, m, c);
      SavedIsValid(hash, d, m, c);
      var created := saved.(output := Some([]));
      var indices := SortIndices(saved.state.value.verified);
      var ws := RebuildWrites(hash, m, created, indices);
      RebuildKeepsRest(hash, m, created, indices);
      LastOfAppend([d.(parts := d.parts[c.index := c.data]), saved, created], ws, d);
    }
  }

  /** Only one event completes the set. */
  lemma {:induction false} CompletedOnce(hash: Bytes -> Digest, m: FileManifest, events: seq<Event>, i: nat, j: nat)
    requires |m.chunks| < 0x1_0000_0000 && m.chunks != []
    requires CompletedBy(hash, m, events, i) && CompletedBy(hash, m, events, j)
    ensures i == j
  {
    if i < j {
      StaysComplete(hash, m, events, i + 1, j);
    } else if j < i {
      StaysComplete(hash, m, events, j + 1, i);
    }
  }

  lemma {:induction false} StaysComplete(hash: Bytes -> Digest, m: FileManifest, events: seq<Event>, i: nat, j: nat)
    requires |m.chunks| < 0x1_0000_0000 && m.chunks != [] && i <= j <= |events|
    requires IsComplete(hash, m, events[..i])
    ensures IsComplete(hash, m, events[..j])
    decreases j - i
  {
    hide AfterEvent, ReceiveWrites;
    if i < j {
      var before := CrashRun(hash, Announced(m), events[..i]);
      CrashRunSnoc(hash, Announced(m), events[..i + 1]);
      assert events[..i + 1][..i] == events[..i];
      EventOnComplete(hash, m, before, events[i]);
      StaysComplete(hash, m, events, i + 1, j);
    }
  }
}

/** Chunked upload sessions. A handler checks the session, awaits the request's body and only then changes the
    session, so a put and a complete are two steps each, and other requests may come between them. */
module UploadSession {
  import opened Wrappers
  import opened Seqs

  const UPLOAD_CHUNK_SIZE := 8 * 1024 * 1024

  datatype Status = Initialized | Receiving | Completed | Aborted

  /** A session, and the requests whose bodies are still awaited: the indices of the puts, and how many completes. */
  datatype Session = Session(totalBytes: nat, chunkSize: nat, chunks: seq<int>, status: Status, puts: seq<int>,
                             completes: nat)
  {
    function TotalChunks(): nat
      requires chunkSize > 0
    {
      ChunkCount(totalBytes, chunkSize)
    }
  }

  /** The size divided by the chunk size, rounded up. */
  function ChunkCount(totalBytes: nat, chunkSize: nat): nat
    requires chunkSize > 0
  {
    (totalBytes + chunkSize - 1) / chunkSize
  }

  datatype Reply =
    | Refused | Conflict | OutOfRange | Awaiting | EmptyChunk | Oversize | Stored | Missing(indices: seq<int>)
    | Done | Gone

  // ----- What each step does -----

  function Create(fileName: string, totalBytes: int): Option<Session> {
    if fileName == "" || totalBytes <= 0 then None
    else Some(Session(totalBytes, UPLOAD_CHUNK_SIZE, [], Initialized, [], 0))
  }

  predicate IntLe(a: int, b: int) { a <= b }

  function WithChunk(chunks: seq<int>, index: int): seq<int> {
    SortBy(IntLe, if index in chunks then chunks else chunks + [index])
  }

  /** The checks of a put, before its body is awaited; None stands for an index that is no integer. */
  function StartPut(s: Session, index: Option<int>): (Session, Reply)
    requires s.chunkSize > 0
  {
    if s.status.Completed? || s.status.Aborted? then (s, Conflict)
    else if index.None? || index.value < 0 || index.value >= s.TotalChunks() then (s, OutOfRange)
    else (s.(puts := s.puts + [index.value]), Awaiting)
  }

  /** The rest of one of the awaited puts, once its body of this many bytes is there. */
  function EndPut(s: Session, which: nat, size: nat): (Session, Reply)
    requires which < |s.puts|
  {
    var index := s.puts[which];
    var t := s.(puts := s.puts[..which] + s.puts[which + 1..]);
    if size == 0 then (t, EmptyChunk)
    else if size > s.chunkSize then (t, Oversize)
    else (t.(status := Receiving, chunks := WithChunk(s.chunks, index)), Stored)
  }

  /** The indices below n that are not among the chunks, ascending. */
  function MissingBelow(chunks: seq<int>, n: nat): seq<int> {
    if n == 0 then [] else MissingBelow(chunks, n - 1) + if n - 1 in chunks then [] else [n - 1]
  }

  /** The checks of a complete, before its body is awaited. */
  function StartComplete(s: Session): (Session, Reply)
    requires s.chunkSize > 0
  {
    if s.status.Aborted? then (s, Conflict)
    else
      var missing := MissingBelow(s.chunks, s.TotalChunks());
      if |missing| > 0 then (s, Missing(missing)) else (s.(completes := s.completes + 1), Awaiting)
  }

  function EndComplete(s: Session): (Session, Reply)
    requires s.completes > 0
  {
    (s.(completes := s.completes - 1, status := Completed), Done)
  }

  function Abort(s: Session): (Session, Reply) { (s.(status := Aborted, chunks := []), Gone) }

  // ----- Runs -----

  datatype Event =
    | PutStarts(requested: Option<int>) | PutEnds(which: nat, size: nat) | CompleteStarts | CompleteEnds | Aborts

  /** A step can happen: what ends has started. */
  predicate Enabled(s: Session, e: Event) {
    s.chunkSize > 0 && (e.PutEnds? ==> e.which < |s.puts|) && (e.CompleteEnds? ==> s.completes > 0)
  }

  function Step(s: Session, e: Event): (Session, Reply)
    requires Enabled(s, e)
  {
    match e
    case PutStarts(index) => StartPut(s, index)
    case PutEnds(which, size) => EndPut(s, which, size)
    case CompleteStarts => StartComplete(s)
    case CompleteEnds => EndComplete(s)
    case Aborts => Abort(s)
  }

  ghost predicate Possible(s: Session, es: seq<Event>) {
    es == [] || (Possible(s, es[..|es| - 1]) && Enabled(After(s, es[..|es| - 1]), es[|es| - 1]))
  }

  function After(s: Session, es: seq<Event>): Session {
    if es == [] then s
    else
      var t := After(s, es[..|es| - 1]);
      if Enabled(t, es[|es| - 1]) then Step(t, es[|es| - 1]).0 else t
  }

  /** The stored indices after a step. */
  function Stores(s: Session, e: Event, before: set<int>): set<int> {
    if e.Aborts? then {}
    else if e.PutEnds? && Enabled(s, e) && Step(s, e).1.Stored? then before + {s.puts[e.which]}
    else before
  }

  /** The indices stored since the last abort. */
  function Accepted(s: Session, es: seq<Event>): set<int> {
    if es == [] then {}
    else
      var init, e := es[..|es| - 1], es[|es| - 1];
      Stores(After(s, init), e, Accepted(s, init))
  }

  ghost predicate Ascending(s: seq<int>) { forall i, j :: 0 <= i < j < |s| ==> s[i] < s[j] }

  ghost predicate Valid(s: Session) {
    && s.chunkSize > 0 && s.totalBytes > 0 && Ascending(s.chunks)
    && (forall i :: i in s.chunks || i in s.puts ==> 0 <= i < s.TotalChunks())
  }

  lemma {:induction false} ChunkStored(chunks: seq<int>, index: int)
    requires Ascending(chunks)
    ensures Ascending(WithChunk(chunks, index))
    ensures forall i :: i in WithChunk(chunks, index) <==> i in chunks || i == index
  {
    var added := if index in chunks then chunks else chunks + [index];
    SortPermutes(IntLe, added);
    SortSorts(IntLe, added);
    DistinctPermutes(added, WithChunk(chunks, index));
    hide SortBy;
    var r := WithChunk(chunks, index);
    forall i, j | 0 <= i < j < |r| ensures r[i] < r[j] {
      assert IntLe(r[i], r[j]) && r[i] != r[j];
    }
  }

  lemma {:induction false} EndPutKeepsValid(s: Session, which: nat, size: nat)
    requires Valid(s) && which < |s.puts|
    ensures Valid(EndPut(s, which, size).0)
  {
    hide WithChunk, ChunkCount;
    var t := EndPut(s, which, size).0;
    var index, rest := s.puts[which], s.puts[..which] + s.puts[which + 1..];
    ChunkStored(s.chunks, index);
    assert t.puts == rest && (t.chunks == s.chunks || t.chunks == WithChunk(s.chunks, index));
    forall i | i in t.chunks || i in t.puts ensures i in s.chunks || i in s.puts {
      assert index in s.puts;
      if i in rest {
        assert i in s.puts[..which] || i in s.puts[which + 1..];
      }
    }
  }

  lemma {:induction false} StepKeepsValid(s: Session, e: Event)
    requires Valid(s) && Enabled(s, e)
    ensures Valid(Step(s, e).0)
    ensures Step(s, e).0.totalBytes == s.totalBytes && Step(s, e).0.chunkSize == s.chunkSize
  {
    hide WithChunk, ChunkCount, MissingBelow;
    if e.PutEnds? {
      EndPutKeepsValid(s, e.which, e.size);
    }
  }

  lemma {:induction false} StepStores(s: Session, e: Event, before: set<int>)
    requires Valid(s) && Enabled(s, e) && forall i :: i in s.chunks <==> i in before
    ensures forall i :: i in Step(s, e).0.chunks <==> i in Stores(s, e, before)
  {
    hide WithChunk, ChunkCount, MissingBelow;
    if e.PutEnds? {
      ChunkStored(s.chunks, s.puts[e.which]);
    }
  }

  /** In every reachable session the chunks are strictly increasing, in range, and exactly the indices stored
      since the last abort. */
  lemma {:induction false} ReachableSessions(s: Session, es: seq<Event>)
    requires Valid(s) && s.chunks == []
    ensures var t := After(s, es);
            && Valid(t) && t.totalBytes == s.totalBytes && t.chunkSize == s.chunkSize
            && forall i :: i in t.chunks <==> i in Accepted(s, es)
  {
    if es != [] {
      var init, e := es[..|es| - 1], es[|es| - 1];
      var t := After(s, init);
      ReachableSessions(s, init);
      hide Step, Valid, Enabled;
      if Enabled(t, e) {
        StepKeepsValid(t, e);
        StepStores(t, e, Accepted(s, init));
      } else {
        NoAbortDisabled(t, e);
      }
    }
  }

  lemma {:induction false} NoAbortDisabled(s: Session, e: Event)
    requires Valid(s) && !Enabled(s, e)
    ensures !e.Aborts?
  {}

  lemma {:induction false} AscendingIsUnique(s: seq<int>, t: seq<int>)
    requires Ascending(s) && Ascending(t) && forall i :: i in s <==> i in t
    ensures s == t
  {
    assert |s| > 0 ==> s[0] in s;
    assert |t| > 0 ==> t[0] in t;
    if s != [] && t != [] {
      var m, n := |s| - 1, |t| - 1;
      LastIsGreatest(s);
      LastIsGreatest(t);
      assert s[m] in t && t[n] in s;
      assert s[m] == t[n];
      AscendingIsUnique(s[..m], t[..n]);
      assert s == s[..m] + [s[m]] && t == t[..n] + [t[n]];
    }
  }

  lemma {:induction false} LastIsGreatest(s: seq<int>)
    requires Ascending(s) && s != []
    ensures var m := |s| - 1;
            && s[m] in s && (forall i :: i in s ==> i <= s[m])
            && Ascending(s[..m]) && forall i :: i in s[..m] <==> i in s && i != s[m]
  {
    var m := |s| - 1;
    assert s == s[..m] + [s[m]];
  }

  /** Order and repeats do not matter: runs that stored the same indices have the same chunks. */
  lemma {:induction false} ChunksDependOnTheSetOnly(s: Session, es: seq<Event>, fs: seq<Event>)
    requires Valid(s) && s.chunks == [] && Accepted(s, es) == Accepted(s, fs)
    ensures After(s, es).chunks == After(s, fs).chunks
  {
    ReachableSessions(s, es);
    ReachableSessions(s, fs);
    AscendingIsUnique(After(s, es).chunks, After(s, fs).chunks);
  }

  // ----- Completing -----

  lemma {:induction false} MissingIsAscending(chunks: seq<int>, n: nat)
    ensures Ascending(MissingBelow(chunks, n))
    ensures forall i :: 0 <= i < |MissingBelow(chunks, n)| ==> 0 <= MissingBelow(chunks, n)[i] < n
  {
    if n > 0 {
      MissingIsAscending(chunks, n - 1);
    }
  }

  lemma {:induction false} MissingIsComplement(chunks: seq<int>, n: nat)
    ensures Ascending(MissingBelow(chunks, n))
    ensures forall i :: i in MissingBelow(chunks, n) <==> 0 <= i < n && i !in chunks
  {
    MissingIsAscending(chunks, n);
    hide Ascending;
    if n > 0 {
      MissingIsComplement(chunks, n - 1);
    }
  }

  /** A complete on a session that is not aborted is refused exactly when an index is missing, and reports
      exactly the missing ones, ascending. */
  lemma {:induction false} RefusedCompleteReportsTheComplement(s: Session)
    requires Valid(s) && !s.status.Aborted?
    ensures var r := StartComplete(s).1;
            if exists i :: 0 <= i < s.TotalChunks() && i !in s.chunks then
              && r.Missing? && Ascending(r.indices)
              && forall i :: i in r.indices <==> 0 <= i < s.TotalChunks() && i !in s.chunks
            else r == Awaiting
    ensures StartComplete(s).1.Missing? ==> StartComplete(s).0 == s
  {
    hide ChunkCount, MissingBelow;
    var missing := MissingBelow(s.chunks, s.TotalChunks());
    MissingIsComplement(s.chunks, s.TotalChunks());
    assert |missing| > 0 ==> missing[0] in missing;
  }

  function UpTo(n: nat): (r: seq<int>)
    ensures |r| == n && forall i :: 0 <= i < n ==> r[i] == i
  {
    seq(n, i => i)
  }

  lemma {:induction false} UpToMembers(n: nat)
    ensures Ascending(UpTo(n)) && forall i :: i in UpTo(n) <==> 0 <= i < n
  {
    forall i | 0 <= i < n ensures i in UpTo(n) {
      assert UpTo(n)[i] == i;
    }
  }

  ghost predicate Full(s: Session)
    requires s.chunkSize > 0
  {
    s.chunks == UpTo(s.TotalChunks())
  }

  /** Whoever completed, or is about to, has all chunks. */
  ghost predicate Sound(s: Session) { Valid(s) && (s.status.Completed? || s.completes > 0 ==> Full(s)) }

  lemma {:induction false} FullMeansNoneMissing(s: Session)
    requires Valid(s)
    ensures Full(s) <==> MissingBelow(s.chunks, s.TotalChunks()) == []
    ensures s.TotalChunks() > 0
  {
    AtLeastOneChunk(s.totalBytes, s.chunkSize);
    hide ChunkCount, MissingBelow, UpTo;
    var n := s.TotalChunks();
    var missing := MissingBelow(s.chunks, n);
    MissingIsComplement(s.chunks, n);
    UpToMembers(n);
    assert |missing| > 0 ==> missing[0] in missing;
    if missing == [] {
      assert forall i :: 0 <= i < n ==> i !in missing;
      AscendingIsUnique(UpTo(n), s.chunks);
    }
  }

  lemma {:induction false} AtLeastOneChunk(totalBytes: nat, chunkSize: nat)
    requires totalBytes > 0 && chunkSize > 0
    ensures ChunkCount(totalBytes, chunkSize) > 0
  {
    assert totalBytes + chunkSize - 1 >= chunkSize;
  }

  /** Whoever completed, or is about to, keeps all chunks through every step but one: an abort that comes while a
      complete awaits its body. */
  lemma {:induction false} StaysSoundUnlessAbortedWhileAwaited(s: Session, e: Event)
    requires Sound(s) && Enabled(s, e)
    ensures Sound(Step(s, e).0) <==> !(e.Aborts? && s.completes > 0)
  {
    hide WithChunk, MissingBelow, ChunkCount;
    StepKeepsValid(s, e);
    var t := Step(s, e).0;
    FullMeansNoneMissing(s);
    match e
    case PutEnds(which, size) =>
      assert s.puts[which] in s.puts;
      if Full(s) {
        FullAbsorbs(s, s.puts[which]);
      }
    case Aborts =>
    case _ =>
  }

  lemma {:induction false} FullAbsorbs(s: Session, index: int)
    requires Valid(s) && Full(s) && 0 <= index < s.TotalChunks()
    ensures WithChunk(s.chunks, index) == s.chunks
  {
    ChunkStored(s.chunks, index);
    assert s.chunks[index] == index;
    AscendingIsUnique(WithChunk(s.chunks, index), s.chunks);
  }

  /** No abort comes while a complete is awaited. */
  ghost predicate AbortsApart(s: Session, es: seq<Event>) {
    es == [] || (AbortsApart(s, es[..|es| - 1]) && !(es[|es| - 1].Aborts? && After(s, es[..|es| - 1]).completes > 0))
  }

  /** Whoever completed, or is about to, has all chunks, all through the run. */
  ghost predicate AlwaysSound(s: Session, es: seq<Event>) { forall i :: 0 <= i <= |es| ==> Sound(After(s, es[..i])) }

  lemma {:induction false} AlwaysSoundStep(s: Session, es: seq<Event>)
    requires es != []
    ensures AlwaysSound(s, es) <==> AlwaysSound(s, es[..|es| - 1]) && Sound(After(s, es))
  {
    hide Sound, After;
    var init := es[..|es| - 1];
    assert forall i :: 0 <= i <= |init| ==> init[..i] == es[..i];
    assert es[..|es|] == es;
    if AlwaysSound(s, es) {
      forall i | 0 <= i <= |init| ensures Sound(After(s, init[..i])) {
        assert Sound(After(s, es[..i]));
      }
      assert Sound(After(s, es[..|es|]));
    }
    if AlwaysSound(s, init) && Sound(After(s, es)) {
      forall i | 0 <= i <= |es| ensures Sound(After(s, es[..i])) {
        assert i <= |init| ==> Sound(After(s, init[..i]));
      }
    }
  }

  lemma {:induction false} SoundNow(s: Session, es: seq<Event>)
    requires AlwaysSound(s, es)
    ensures Sound(After(s, es))
  {
    assert es[..|es|] == es;
  }

  /** Over every run: sessions that completed, or are about to, have the chunks 0 to n - 1 all the way through it if
      and only if no abort in it comes while a complete awaits its body. */
  lemma {:induction false} SoundUnlessAbortedWhileAwaited(s: Session, es: seq<Event>)
    requires Sound(s)
    ensures AlwaysSound(s, es) <==> AbortsApart(s, es)
  {
    if es == [] {
      assert es[..0] == es;
    } else {
      var init, e := es[..|es| - 1], es[|es| - 1];
      var t := After(s, init);
      SoundUnlessAbortedWhileAwaited(s, init);
      AlwaysSoundStep(s, es);
      if AlwaysSound(s, init) {
        SoundNow(s, init);
        SoundHasSize(t);
        hide Sound, AlwaysSound;
        if Enabled(t, e) {
          StaysSoundUnlessAbortedWhileAwaited(t, e);
        }
      }
    }
  }

  // ----- Completed sessions -----

  /** A completed session has exactly the chunks 0 to n - 1. */
  ghost predicate CompletedIsFull(s: Session) { s.status.Completed? ==> s.chunkSize > 0 && Full(s) }

  /** It does not always: a complete that was awaiting its body at an abort completes the session without a chunk. */
  lemma {:induction false} CompletesShort(s: Session)
    requires Valid(s) && s.completes > 0
    ensures var t := Step(Step(s, Aborts).0, CompleteEnds).0;
            t.status.Completed? && t.chunks == [] && !Full(t)
  {
    AtLeastOneChunk(s.totalBytes, s.chunkSize);
  }

  /** One step keeps it exactly unless it ends a complete while a chunk is missing. */
  lemma {:induction false} CompletedStaysFull(s: Session, e: Event)
    requires Valid(s) && CompletedIsFull(s) && Enabled(s, e)
    ensures CompletedIsFull(Step(s, e).0) <==> !(e.CompleteEnds? && !Full(s))
  {
    hide WithChunk, MissingBelow, ChunkCount;
  }

  /** A session with nothing stored, awaited or completed. */
  ghost predicate Untouched(s: Session) {
    Valid(s) && s.chunks == [] && s.puts == [] && s.completes == 0 && !s.status.Completed?
  }

  /** Every index was stored since the last abort. */
  ghost predicate AllStored(s: Session, es: seq<Event>)
    requires s.chunkSize > 0
  {
    forall i :: 0 <= i < s.TotalChunks() ==> i in Accepted(s, es)
  }

  /** A complete that ends after these steps, an abort among them, while an index is missing. */
  ghost predicate EndsShort(s: Session, before: seq<Event>, e: Event) {
    && s.chunkSize > 0 && e.CompleteEnds? && Enabled(After(s, before), e)
    && Aborts in before && !AllStored(s, before)
  }

  lemma {:induction false} FullExactly(s: Session, es: seq<Event>)
    requires Valid(s) && s.chunks == []
    ensures Valid(After(s, es)) && (Full(After(s, es)) <==> AllStored(s, es))
  {
    ReachableSessions(s, es);
    hide ChunkCount, After, UpTo, Accepted;
    var t, n := After(s, es), s.TotalChunks();
    UpToMembers(n);
    assert t.TotalChunks() == n;
    if Full(t) {
      assert forall i :: 0 <= i < n ==> i in t.chunks;
    }
    if AllStored(s, es) {
      AscendingIsUnique(UpTo(n), t.chunks);
    }
  }

  /** A session is refused for an empty name or no bytes, and otherwise new, in chunks of 8 MiB: as many as the bytes
      need, the last one not empty. */
  lemma {:induction false} CreateAnswers(fileName: string, totalBytes: int)
    ensures Create(fileName, totalBytes).None? <==> fileName == "" || totalBytes <= 0
    ensures Create(fileName, totalBytes).Some? ==>
      var s := Create(fileName, totalBytes).value;
      && Untouched(s) && s.status.Initialized? && s.chunkSize == 8_388_608
      && (s.TotalChunks() - 1) * s.chunkSize < totalBytes <= s.TotalChunks() * s.chunkSize
  {}

  lemma {:induction false} SoundWithoutAborts(s: Session, es: seq<Event>)
    requires Sound(s) && Aborts !in es
    ensures Sound(After(s, es))
  {
    if es != [] {
      var init, e := es[..|es| - 1], es[|es| - 1];
      assert e in es;
      SoundWithoutAborts(s, init);
      hide Sound, Enabled, Step;
      assert After(s, init).chunkSize > 0 by { SoundHasSize(After(s, init)); }
      if Enabled(After(s, init), e) {
        StaysSoundUnlessAbortedWhileAwaited(After(s, init), e);
      }
    }
  }

  /** The next step of a run, for a session that is full so far if it completed. */
  lemma {:induction false} NextStepOfRun(s: Session, before: seq<Event>, e: Event)
    requires Untouched(s) && CompletedIsFull(After(s, before))
    ensures CompletedIsFull(After(s, before + [e])) <==> !EndsShort(s, before, e)
  {
    FullExactly(s, before);
    assert (before + [e])[..|before|] == before;
    var t := After(s, before);
    if Aborts !in before {
      SoundWithoutAborts(s, before);
    }
    hide Valid, Full, Step, AllStored, CompletedIsFull;
    if Enabled(t, e) {
      CompletedStaysFull(t, e);
    }
  }

  /** A completed session has exactly the chunks 0 to n - 1, all through the run. */
  ghost predicate AlwaysFull(s: Session, es: seq<Event>) {
    forall i :: 0 <= i <= |es| ==> CompletedIsFull(After(s, es[..i]))
  }

  ghost predicate NoneEndsShort(s: Session, es: seq<Event>) {
    forall i :: 0 <= i < |es| ==> !EndsShort(s, es[..i], es[i])
  }

  lemma {:induction false} FullUpTo(s: Session, es: seq<Event>, i: nat)
    requires Untouched(s) && NoneEndsShort(s, es) && i <= |es|
    ensures CompletedIsFull(After(s, es[..i]))
  {
    if i > 0 {
      FullUpTo(s, es, i - 1);
      hide Untouched, CompletedIsFull, EndsShort, After;
      assert es[..i] == es[..i - 1] + [es[i - 1]];
      NextStepOfRun(s, es[..i - 1], es[i - 1]);
    }
  }

  /** Over every run of a new session: completed means the chunks 0 to n - 1 all the way through it if and only if no
      complete ends after an abort while an index is missing that was not stored since the last abort. */
  lemma {:induction false} CompletedSessionsAreFull(s: Session, es: seq<Event>)
    requires Untouched(s)
    ensures AlwaysFull(s, es) <==> NoneEndsShort(s, es)
  {
    hide Untouched, CompletedIsFull, EndsShort, After;
    if NoneEndsShort(s, es) {
      forall i | 0 <= i <= |es| ensures CompletedIsFull(After(s, es[..i])) {
        FullUpTo(s, es, i);
      }
    }
    if AlwaysFull(s, es) {
      forall i | 0 <= i < |es| ensures !EndsShort(s, es[..i], es[i]) {
        assert es[..i + 1] == es[..i] + [es[i]];
        NextStepOfRun(s, es[..i], es[i]);
      }
    }
  }

  // ----- Aborting -----

  ghost predicate Frozen(s: Session) { s.status.Aborted? && s.chunks == [] }

  lemma {:induction false} NothingAwaitedStaysFrozen(s: Session, es: seq<Event>)
    requires Frozen(s) && s.puts == [] && s.completes == 0
    ensures var t := After(s, es); Frozen(t) && t.puts == [] && t.completes == 0
  {
    if es != [] {
      NothingAwaitedStaysFrozen(s, es[..|es| - 1]);
    }
  }

  /** The session stays empty and aborted through everything that can follow. */
  ghost predicate StaysFrozen(s: Session) { forall es :: Possible(s, es) ==> Frozen(After(s, es)) }

  lemma {:induction false} ThawedBy(s: Session, e: Event)
    requires Enabled(s, e) && !Frozen(Step(s, e).0)
    ensures !StaysFrozen(s)
  {
    var es := [e];
    assert es[..|es| - 1] == [];
    assert After(s, []) == s && Possible(s, []);
    assert Possible(s, es) && After(s, es) == Step(s, e).0;
  }

  /** An aborted session stays empty and aborted through everything that can follow exactly when no put and
      no complete was awaiting its body at the abort. */
  lemma {:induction false} AbortFreezesIffNothingAwaited(s: Session)
    requires Valid(s)
    ensures StaysFrozen(Abort(s).0) <==> s.puts == [] && s.completes == 0
  {
    var t := Abort(s).0;
    if s.puts == [] && s.completes == 0 {
      forall es | Possible(t, es) ensures Frozen(After(t, es)) {
        NothingAwaitedStaysFrozen(t, es);
      }
    } else {
      hide StaysFrozen, Frozen;
      var e := Thaws(s);
      ThawedBy(t, e);
    }
  }

  /** What is awaited at an abort can end after it, and undo it. */
  lemma {:induction false} Thaws(s: Session) returns (e: Event)
    requires Valid(s) && !(s.puts == [] && s.completes == 0)
    ensures Enabled(Abort(s).0, e) && !Frozen(Step(Abort(s).0, e).0)
  {
    hide WithChunk;
    if s.completes > 0 {
      e := CompleteEnds;
    } else {
      e := PutEnds(0, 1);
    }
  }

  // ----- Handlers that nothing comes between -----

  datatype Call = PutChunk(index: Option<int>, size: nat) | Complete | Cancel

  function Serve(s: Session, c: Call): (Session, Reply)
    requires s.chunkSize > 0
  {
    match c
    case PutChunk(index, size) =>
      var (t, r) := StartPut(s, index);
      if r.Awaiting? then EndPut(t, |t.puts| - 1, size) else (t, r)
    case Complete =>
      var (t, r) := StartComplete(s);
      if r.Awaiting? then EndComplete(t) else (t, r)
    case Cancel => Abort(s)
  }

  function ServeAll(s: Session, cs: seq<Call>): (t: Session)
    requires s.chunkSize > 0
    ensures t.chunkSize == s.chunkSize
  {
    if cs == [] then s else Serve(ServeAll(s, cs[..|cs| - 1]), cs[|cs| - 1]).0
  }

  ghost predicate Idle(s: Session) { Sound(s) && s.puts == [] && s.completes == 0 }

  lemma {:induction false} ServeKeepsIdle(s: Session, c: Call)
    requires Idle(s)
    ensures Idle(Serve(s, c).0) && (Frozen(s) ==> Frozen(Serve(s, c).0))
  {
    hide Sound, WithChunk, MissingBelow, ChunkCount;
    assert s.chunkSize > 0 by { SoundHasSize(s); }
    match c
    case PutChunk(index, size) =>
      var (t, r) := StartPut(s, index);
      StaysSoundUnlessAbortedWhileAwaited(s, PutStarts(index));
      if r.Awaiting? {
        StaysSoundUnlessAbortedWhileAwaited(t, PutEnds(|t.puts| - 1, size));
      }
    case Complete =>
      var (t, r) := StartComplete(s);
      StaysSoundUnlessAbortedWhileAwaited(s, CompleteStarts);
      if r.Awaiting? {
        StaysSoundUnlessAbortedWhileAwaited(t, CompleteEnds);
      }
    case Cancel => StaysSoundUnlessAbortedWhileAwaited(s, Aborts);
  }

  lemma {:induction false} SoundHasSize(s: Session)
    requires Sound(s)
    ensures s.chunkSize > 0
  {}

  /** While no two handlers overlap, a completed session has all its chunks and an aborted one stays empty. */
  lemma {:induction false} HandlersApartAreSafe(s: Session, cs: seq<Call>)
    requires s.chunkSize > 0 && Idle(s)
    ensures Idle(ServeAll(s, cs)) && (Frozen(s) ==> Frozen(ServeAll(s, cs)))
  {
    if cs != [] {
      hide Idle, Frozen, Serve;
      HandlersApartAreSafe(s, cs[..|cs| - 1]);
      ServeKeepsIdle(ServeAll(s, cs[..|cs| - 1]), cs[|cs| - 1]);
    }
  }

  // ----- The session object -----

  class Upload {
    const totalBytes: nat
    const chunkSize: nat
    var chunks: seq<int>
    var status: Status

    /** The session, with the requests that await their bodies. */
    ghost function View(puts: seq<int>, completes: nat): Session
      reads this
    {
      Session(totalBytes, chunkSize, chunks, status, puts, completes)
    }

    constructor (fileName: string, totalBytes: nat)
      requires fileName != "" && totalBytes > 0
      ensures Create(fileName, totalBytes) == Some(View([], 0))
    {
      this.totalBytes, chunkSize, chunks, status := totalBytes, UPLOAD_CHUNK_SIZE, [], Initialized;
    }

    method BeginPut(index: Option<int>, ghost puts: seq<int>, ghost completes: nat) returns (reply: Reply)
      requires chunkSize > 0
      ensures StartPut(View(puts, completes), index)
           == (View(if reply.Awaiting? && index.Some? then puts + [index.value] else puts, completes), reply)
      ensures reply.Awaiting? ==> index.Some?
    {
      if status.Completed? || status.Aborted? {
        return Conflict;
      }
      var totalChunks := ChunkCount(totalBytes, chunkSize);
      if index.None? || index.value < 0 || index.value >= totalChunks {
        return OutOfRange;
      }
      reply := Awaiting;
    }

    method FinishPut(
        index: int, size: nat, ghost puts: seq<int>, ghost which: nat, ghost completes: nat) returns (reply: Reply)
      requires which < |puts| && puts[which] == index
      modifies this
      ensures (View(puts[..which] + puts[which + 1..], completes), reply)
           == EndPut(old(View(puts, completes)), which, size)
    {
      if size == 0 {
        return EmptyChunk;
      }
      if size > chunkSize {
        return Oversize;
      }
      status := Receiving;
      if index !in chunks {
        chunks := chunks + [index];
      }
      chunks := SortBy(IntLe, chunks);
      reply := Stored;
    }

    method BeginComplete(ghost puts: seq<int>, ghost completes: nat) returns (reply: Reply)
      requires chunkSize > 0
      ensures StartComplete(View(puts, completes))
           == (View(puts, if reply.Awaiting? then completes + 1 else completes), reply)
    {
      if status.Aborted? {
        return Conflict;
      }
      var totalChunks, missing := ChunkCount(totalBytes, chunkSize), [];
      for i := 0 to totalChunks
        invariant missing == MissingBelow(chunks, i)
      {
        if i !in chunks {
          missing := missing + [i];
        }
      }
      if |missing| > 0 {
        return Missing(missing);
      }
      reply := Awaiting;
    }

    method FinishComplete(ghost puts: seq<int>, ghost completes: nat) returns (reply: Reply)
      requires completes > 0
      modifies `status
      ensures (View(puts, completes - 1), reply) == EndComplete(old(View(puts, completes)))
    {
      status := Completed;
      reply := Done;
    }

    method Cancel(ghost puts: seq<int>, ghost completes: nat) returns (reply: Reply)
      modifies this
      ensures (View(puts, completes), reply) == Abort(old(View(puts, completes)))
    {
      status, chunks := Aborted, [];
      reply := Gone;
    }
  }
}

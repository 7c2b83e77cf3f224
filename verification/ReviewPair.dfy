/**
 Publication of the linked review and acceptance records (orchestrator_harness/review.py)
 and the monitor's repair of broken pairs (orchestrator_harness/monitor.py).

 Each file operation is atomic; a call may die between any two of them.  The record
 lock serializes calls, and a dead call releases it.
 */
module ReviewPair {
  import opened Common

  /******* Records *******/

  // What the worktree says at the time of a call.
  datatype Source = Source(lane: string, run: string, taskCardId: string, taskCardHash: string,
                           resultId: string, resultHash: string, commit: string)

  // What the caller asks to record.
  datatype Request = Request(outcome: string, summary: string, evidence: seq<string>, approval: string, forceReason: Option<string>)

  datatype ReviewBody = ReviewBody(source: Source, outcome: string, summary: string, evidence: seq<string>, at: Option<string>)

  datatype AcceptanceBody = AcceptanceBody(source: Source, approval: string, acceptedBy: string, reviewRef: Hash,
                                           at: Option<string>, forceReason: Option<string>)

  // Content hashes are taken as injective; Other is a string that is no hash of these records.
  datatype Hash = OfReview(review: ReviewBody) | OfAcceptance(acceptance: AcceptanceBody) | Other(text: string)

  datatype Review = Review(body: ReviewBody, contentHash: Hash)

  datatype Acceptance = Acceptance(body: AcceptanceBody, contentHash: Hash)

  datatype File<T> = Absent | Unreadable | Readable(record: T)

  const OUTCOMES := {"PASS", "FAIL", "BLOCKED"}

  const APPROVALS := {"ACCEPTED", "REJECTED"}

  function ReviewOf(s: Source, q: Request, at: Option<string>): Review {
    var body := ReviewBody(s, q.outcome, q.summary, q.evidence, at);
    Review(body, OfReview(body))
  }

  function AcceptanceOf(s: Source, q: Request, at: Option<string>): Acceptance {
    var body := AcceptanceBody(s, q.approval, "ROOT", ReviewOf(s, q, at).contentHash, at, q.forceReason);
    Acceptance(body, OfAcceptance(body))
  }

  predicate Complete(s: Source) {
    s.lane != "" && s.run != "" && s.taskCardId != "" && s.taskCardHash != ""
    && s.resultId != "" && s.resultHash != "" && s.commit != ""
  }

  // The link that is checked before a pair is honored.
  predicate ValidChain(r: Review, a: Acceptance, lane: string, run: string) {
    && r.contentHash == OfReview(r.body)
    && a.contentHash == OfAcceptance(a.body)
    && a.body.reviewRef == r.contentHash
    && Complete(r.body.source) && a.body.source == r.body.source
    && r.body.source.lane == lane && r.body.source.run == run
    && a.body.approval in APPROVALS && a.body.acceptedBy != "" && r.body.outcome in OUTCOMES
  }

  // The fields that identify what was reviewed.
  ghost function Fields(s: Source): seq<string> {
    [s.lane, s.run, s.taskCardId, s.taskCardHash, s.resultId, s.resultHash, s.commit]
  }

  ghost predicate NoneEmpty(s: Source) {
    "" !in Fields(s)
  }

  // Two readable records that vouch for each other: both bear their own hashes, the acceptance refers to
  // the review's, and all seven fields are there, the same in both, and of this lane and run.
  ghost predicate Linked(review: File<Review>, acceptance: File<Acceptance>, lane: string, run: string) {
    && review.Readable? && acceptance.Readable?
    && var r, a := review.record, acceptance.record;
       && r.contentHash == OfReview(r.body) && a.contentHash == OfAcceptance(a.body) && a.body.reviewRef == OfReview(r.body)
       && NoneEmpty(r.body.source) && Fields(a.body.source) == Fields(r.body.source)
       && Fields(r.body.source)[..2] == [lane, run]
       && (a.body.approval == "ACCEPTED" || a.body.approval == "REJECTED") && a.body.acceptedBy != ""
       && (r.body.outcome == "PASS" || r.body.outcome == "FAIL" || r.body.outcome == "BLOCKED")
  }

  lemma CompleteExactly(s: Source)
    ensures Complete(s) <==> NoneEmpty(s)
  {
    var f := Fields(s);
    assert f[0] in f && f[1] in f && f[2] in f && f[3] in f && f[4] in f && f[5] in f && f[6] in f;
  }

  lemma ChainIsLink(r: Review, a: Acceptance, lane: string, run: string)
    ensures ValidChain(r, a, lane, run) <==> Linked(Readable(r), Readable(a), lane, run)
  {
    var f, g := Fields(r.body.source), Fields(a.body.source);
    CompleteExactly(r.body.source);
    if f == g {
      assert f[0] == g[0] && f[1] == g[1] && f[2] == g[2] && f[3] == g[3] && f[4] == g[4] && f[5] == g[5] && f[6] == g[6];
      assert r.body.source == a.body.source;
    }
    assert f[..2] == [r.body.source.lane, r.body.source.run];
    assert [r.body.source.lane, r.body.source.run] == [lane, run] <==> r.body.source.lane == lane && r.body.source.run == run by {
      assert [r.body.source.lane, r.body.source.run][0] == r.body.source.lane && [lane, run][0] == lane;
      assert [r.body.source.lane, r.body.source.run][1] == r.body.source.run && [lane, run][1] == run;
    }
  }

  // A request the command line lets through.
  ghost predicate Admissible(q: Request) {
    q.outcome in OUTCOMES && q.approval in APPROVALS
  }

  // A published pair is a valid chain exactly when no source field is empty.
  lemma PairIsValidExactly(s: Source, q: Request, at: Option<string>)
    requires Admissible(q)
    ensures Linked(Readable(ReviewOf(s, q, at)), Readable(AcceptanceOf(s, q, at)), s.lane, s.run) <==> NoneEmpty(s)
    ensures ValidChain(ReviewOf(s, q, at), AcceptanceOf(s, q, at), s.lane, s.run) <==> Complete(s)
  {
    ChainIsLink(ReviewOf(s, q, at), AcceptanceOf(s, q, at), s.lane, s.run);
    CompleteExactly(s);
  }

  lemma ValidIsLinked(review: File<Review>, acceptance: File<Acceptance>, lane: string, run: string)
    ensures Linked(review, acceptance, lane, run) <==>
            review.Readable? && acceptance.Readable? && ValidChain(review.record, acceptance.record, lane, run)
  {
    if review.Readable? && acceptance.Readable? {
      ChainIsLink(review.record, acceptance.record, lane, run);
    }
  }

  datatype WriteResult = Published(review: Review, acceptance: Acceptance) | Conflict | Died

  class RecordFolder {
    var review: File<Review>
    var acceptance: File<Acceptance>

    constructor (review: File<Review>, acceptance: File<Acceptance>)
      ensures this.review == review && this.acceptance == acceptance
    {
      this.review, this.acceptance := review, acceptance;
    }

    ghost predicate Holds(r: Review, a: Acceptance)
      reads this
    {
      review == Readable(r) && acceptance == Readable(a)
    }

    predicate ValidPair(lane: string, run: string)
      reads this
    {
      review.Readable? && acceptance.Readable? && ValidChain(review.record, acceptance.record, lane, run)
    }

    // Publish, complete, or replay the pair; never overwrite.  The call may die before its
    // first write or, where it makes two, between them.
    method WritePair(s: Source, q: Request, now: string, diesAfter: Option<nat>) returns (result: WriteResult)
      requires Admissible(q)
      modifies this
      // no existing record is ever overwritten
      ensures !old(review).Absent? ==> review == old(review)
      ensures !old(acceptance).Absent? ==> acceptance == old(acceptance)
      // whatever is written belongs to this source and this request
      ensures old(review).Absent? && !review.Absent? ==> exists at :: review == Readable(ReviewOf(s, q, at))
      ensures old(acceptance).Absent? && !acceptance.Absent? ==> exists at :: acceptance == Readable(AcceptanceOf(s, q, at))
      ensures result.Published? ==>
                && Holds(result.review, result.acceptance)
                && exists at :: result.review == ReviewOf(s, q, at) && result.acceptance == AcceptanceOf(s, q, at)
      ensures result.Conflict? ==> review == old(review) && acceptance == old(acceptance)
      // a fresh call
      ensures old(review).Absent? && old(acceptance).Absent? ==>
                var r, a := ReviewOf(s, q, Some(now)), AcceptanceOf(s, q, Some(now));
                match diesAfter
                case None => result == Published(r, a)
                case Some(n) =>
                  && result == (if n < 2 then Died else Published(r, a))
                  && review == (if n == 0 then Absent else Readable(r)) && acceptance == (if n < 2 then Absent else Readable(a))
      // the second half of an interrupted call
      ensures forall at :: old(review) == Readable(ReviewOf(s, q, at)) && old(acceptance).Absent? ==>
                result == if !NoneEmpty(s) then Conflict else if diesAfter == Some(0) then Died
                          else Published(ReviewOf(s, q, at), AcceptanceOf(s, q, at))
      ensures forall at :: old(review) == Readable(ReviewOf(s, q, at)) && old(acceptance).Absent? ==>
                acceptance in {Absent, Readable(AcceptanceOf(s, q, at))}
      // the first half, if only the acceptance survived
      ensures forall at :: old(acceptance) == Readable(AcceptanceOf(s, q, at)) && old(review).Absent? ==>
                result == if !NoneEmpty(s) then Conflict else if diesAfter == Some(0) then Died
                          else Published(ReviewOf(s, q, at), AcceptanceOf(s, q, at))
      ensures result.Died? && !(old(review).Absent? && old(acceptance).Absent?) ==> review == old(review) && acceptance == old(acceptance)
      // a complete pair
      ensures forall at :: old(review) == Readable(ReviewOf(s, q, at)) && old(acceptance) == Readable(AcceptanceOf(s, q, at)) ==>
                result == if NoneEmpty(s) then Published(ReviewOf(s, q, at), AcceptanceOf(s, q, at)) else Conflict
      ensures old(Linked(review, acceptance, s.lane, s.run)) ==>
                (result.Published? <==> exists at ::
                   old(review) == Readable(ReviewOf(s, q, at)) && old(acceptance) == Readable(AcceptanceOf(s, q, at)))
    {
      hide Linked, NoneEmpty, Complete;
      CompleteExactly(s);
      ValidIsLinked(review, acceptance, s.lane, s.run);
      var r, a := ReviewOf(s, q, Some(now)), AcceptanceOf(s, q, Some(now));
      if !acceptance.Absent? {
        if review.Absent? {
          if acceptance.Unreadable? {
            return Conflict;
          }
          var existing := acceptance.record;
          r, a := ReviewOf(s, q, existing.body.at), AcceptanceOf(s, q, existing.body.at);
          if existing != a || !ValidChain(r, a, s.lane, s.run) {
            return Conflict;
          }
          if diesAfter == Some(0) {
            return Died;
          }
          review := Readable(r);
          return Published(r, existing);
        }
        return ReplayPair(s, q);
      }
      if !review.Absent? {
        if review.Unreadable? {
          return Conflict;
        }
        var existing := review.record;
        r := ReviewOf(s, q, existing.body.at);
        if existing != r {
          return Conflict;
        }
        a := AcceptanceOf(s, q, r.body.at);
        if !ValidChain(r, a, s.lane, s.run) {
          return Conflict;
        }
        if diesAfter == Some(0) {
          return Died;
        }
        acceptance := Readable(a);
        return Published(r, a);
      }
      if diesAfter == Some(0) {
        return Died;
      }
      review := Readable(r);
      if diesAfter == Some(1) {
        return Died;
      }
      acceptance := Readable(a);
      return Published(r, a);
    }

    // Verify an already published pair against this retry.
    function ReplayPair(s: Source, q: Request): WriteResult
      reads this
    {
      if !review.Readable? || !acceptance.Readable? then Conflict
      else
        var r, a := review.record, acceptance.record;
        if !ValidChain(r, a, s.lane, s.run)
          || r.body.outcome != q.outcome || r.body.summary != q.summary || r.body.evidence != q.evidence
          || a.body.approval != q.approval || a.body.forceReason != q.forceReason then Conflict
        else if r != ReviewOf(s, q, r.body.at) || a != AcceptanceOf(s, q, r.body.at) then Conflict
        else Published(r, a)
    }

    // The monitor removes a broken pair; it may die before, between, or after the two removals.
    method RecoverBroken(lane: string, run: string, diesAfter: Option<nat>) returns (removed: bool)
      modifies this
      ensures old(Linked(review, acceptance, lane, run)) ==> !removed && review == old(review) && acceptance == old(acceptance)
      ensures review in {old(review), Absent} && acceptance in {old(acceptance), Absent}
      ensures diesAfter.None? ==> Linked(review, acceptance, lane, run) || (review.Absent? && acceptance.Absent?)
      ensures !old(Linked(review, acceptance, lane, run)) && diesAfter == Some(1) ==> review.Absent? && acceptance == old(acceptance)
      // the answer: a broken pair was there, and is gone
      ensures removed <==>
                && !(old(review).Absent? && old(acceptance).Absent?) && !old(Linked(review, acceptance, lane, run))
                && (diesAfter.None? || diesAfter.value >= 2)
      ensures removed ==> review.Absent? && acceptance.Absent?
      ensures diesAfter == Some(0) ==> review == old(review) && acceptance == old(acceptance)
    {
      hide Linked, ValidChain;
      ValidIsLinked(review, acceptance, lane, run);
      if review.Absent? && acceptance.Absent? {
        return false;
      }
      if ValidPair(lane, run) {
        return false;
      }
      if diesAfter == Some(0) {
        return false;
      }
      review := Absent;
      if diesAfter == Some(1) {
        return false;
      }
      acceptance := Absent;
      return true;
    }
  }

  /******* Whole runs *******/

  datatype Call =
    | Writes(source: Source, request: Request, now: string, writeDies: Option<nat>)
    | Recovers(recoverDies: Option<nat>)

  lemma LinkedIsReadable(review: File<Review>, acceptance: File<Acceptance>, lane: string, run: string)
    requires Linked(review, acceptance, lane, run)
    ensures review.Readable? && acceptance.Readable?
  {
  }

  // A complete valid pair outlives every later call, whatever it asks and wherever it dies.
  method CallsKeepPair(f: RecordFolder, lane: string, run: string, calls: seq<Call>)
    requires Linked(f.review, f.acceptance, lane, run)
    requires forall i | 0 <= i < |calls| && calls[i].Writes? :: Admissible(calls[i].request)
    modifies f
    ensures f.review == old(f.review) && f.acceptance == old(f.acceptance)
  {
    hide Linked;
    LinkedIsReadable(f.review, f.acceptance, lane, run);
    for i := 0 to |calls|
      invariant f.review == old(f.review) && f.acceptance == old(f.acceptance)
    {
      match calls[i] {
        case Writes(s, q, now, dies) => var _ := f.WritePair(s, q, now, dies);
        case Recovers(dies) => var _ := f.RecoverBroken(lane, run, dies);
      }
    }
  }

  // Nothing, the first half, or the whole pair of one of the times at which a call was made.
  ghost predicate Halfway(review: File<Review>, acceptance: File<Acceptance>, s: Source, q: Request, times: set<string>) {
    || (review.Absent? && acceptance.Absent?)
    || exists t :: t in times && review == Readable(ReviewOf(s, q, Some(t)))
         && acceptance in {Absent, Readable(AcceptanceOf(s, q, Some(t)))}
  }

  lemma HalfwayIsLinked(review: File<Review>, acceptance: File<Acceptance>, s: Source, q: Request, times: set<string>)
    requires Halfway(review, acceptance, s, q, times) && Admissible(q) && NoneEmpty(s)
    ensures !acceptance.Absent? <==> Linked(review, acceptance, s.lane, s.run)
  {
    hide NoneEmpty;
    if !acceptance.Absent? {
      var t :| t in times && review == Readable(ReviewOf(s, q, Some(t))) && acceptance == Readable(AcceptanceOf(s, q, Some(t)));
      PairIsValidExactly(s, q, Some(t));
    }
  }

  function Times(calls: seq<Call>): set<string> {
    set i | 0 <= i < |calls| && calls[i].Writes? :: calls[i].now
  }

  // Retries of one request and repairs, dying anywhere: the folder never holds anything but
  // a prefix of one publication, and a last undisturbed retry completes it.
  method RetriesConverge(f: RecordFolder, s: Source, q: Request, calls: seq<Call>, last: string) returns (result: WriteResult)
    requires f.review.Absent? && f.acceptance.Absent? && Admissible(q) && NoneEmpty(s)
    requires forall i | 0 <= i < |calls| && calls[i].Writes? :: calls[i].source == s && calls[i].request == q
    modifies f
    ensures exists t :: t in Times(calls) + {last}
              && result == Published(ReviewOf(s, q, Some(t)), AcceptanceOf(s, q, Some(t)))
    ensures result.Published? && f.Holds(result.review, result.acceptance) && Linked(f.review, f.acceptance, s.lane, s.run)
  {
    hide Linked, NoneEmpty;
    for i := 0 to |calls|
      invariant Halfway(f.review, f.acceptance, s, q, Times(calls[..i]))
    {
      assert calls[..i + 1] == calls[..i] + [calls[i]];
      assert Times(calls[..i]) <= Times(calls[..i + 1]);
      HalfwayIsLinked(f.review, f.acceptance, s, q, Times(calls[..i]));
      match calls[i] {
        case Writes(s', q', now, dies) =>
          assert calls[..i + 1][i] == calls[i] && now in Times(calls[..i + 1]);
          var _ := f.WritePair(s, q, now, dies);
        case Recovers(dies) =>
          var _ := f.RecoverBroken(s.lane, s.run, dies);
      }
    }
    assert calls[..|calls|] == calls;
    result := f.WritePair(s, q, last, None);
    var t :| t in Times(calls) + {last} && result == Published(ReviewOf(s, q, Some(t)), AcceptanceOf(s, q, Some(t)));
    PairIsValidExactly(s, q, Some(t));
  }

  // Without a commit, the first call still writes its pair, but no retry ever accepts it.
  method UncommittedPairIsNotReplayable(s: Source, q: Request, now: string, later: string)
    returns (first: WriteResult, second: WriteResult)
    requires Admissible(q) && s.commit == ""
    ensures first == Published(ReviewOf(s, q, Some(now)), AcceptanceOf(s, q, Some(now)))
    ensures second == Conflict
  {
    assert Fields(s)[6] == "";
    var f := new RecordFolder(Absent, Absent);
    first := f.WritePair(s, q, now, None);
    second := f.WritePair(s, q, later, None);
  }

  // After a crash between the two writes, a retry completes the interrupted pair exactly
  // when the source is complete.
  method InterruptedThenRetried(s: Source, q: Request, now: string, later: string)
    returns (second: WriteResult, ghost review: File<Review>, ghost acceptance: File<Acceptance>)
    requires Admissible(q)
    ensures review == Readable(ReviewOf(s, q, Some(now))) && acceptance == Absent
    ensures second == Published(ReviewOf(s, q, Some(now)), AcceptanceOf(s, q, Some(now))) <==> NoneEmpty(s)
    ensures second.Published? <==> NoneEmpty(s)
  {
    var f := new RecordFolder(Absent, Absent);
    var _ := f.WritePair(s, q, now, Some(1));
    review, acceptance := f.review, f.acceptance;
    second := f.WritePair(s, q, later, None);
  }
}

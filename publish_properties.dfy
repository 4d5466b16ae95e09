// What the step machine of publishToHosting guarantees about every run,
// whatever the platform replies: the calls come in the fixed order, a
// failed call is the last one, the upload happens exactly when the
// platform asks for the hash, and a release is only created right after a
// successful finalize.

module PublishProperties {
  import opened Text
  import opened Optional
  import opened Hosting

  /** The position of a phase in the pipeline; the call it makes has the
      same rank (StepRank). */
  function PhaseRank(p: Phase): nat {
    match p
    case Creating => 0
    case Opening => 1
    case Populating(_) => 2
    case Uploading(_, _) => 3
    case Finalizing(_) => 4
    case Releasing(_) => 5
    case Released => 6
    case Aborted(_) => 7
  }

  /** A call the phase expects has the phase's rank, and a reply that lets
      the pipeline go on moves it to a later phase; any other reply aborts. */
  lemma ExpectedStep(p: Phase, e: Exchange, siteId: string, content: seq<bv8>, hash: string)
    requires Expects(p, e, siteId, content, hash)
    ensures !Terminal(p)
    ensures StepRank(StepOf(e)) == PhaseRank(p)
    ensures Succeeded(e) <==> !After(p, e, hash).Aborted?
    ensures Succeeded(e) ==> PhaseRank(After(p, e, hash)) > PhaseRank(p)
  {
  }

  /** The phase before the `i`-th call of a run, and the phase after it. */
  lemma {:induction false} StepAt(t: seq<Exchange>, i: nat, siteId: string, content: seq<bv8>, hash: string)
    requires PhaseAfter(t, siteId, content, hash).Some? && i < |t|
    ensures PhaseAfter(t[..i], siteId, content, hash).Some?
    ensures var p := PhaseAfter(t[..i], siteId, content, hash).value;
      Expects(p, t[i], siteId, content, hash) &&
      PhaseAfter(t[..i + 1], siteId, content, hash) == Some(After(p, t[i], hash))
    decreases |t|
  {
    var init := t[..|t| - 1];
    if i == |t| - 1 {
      assert t[..i] == init && t[..i + 1] == t;
    } else {
      assert init[..i] == t[..i] && init[..i + 1] == t[..i + 1];
      StepAt(init, i, siteId, content, hash);
    }
  }

  /** The calls of a run come in the order create-site, create version,
      populate, upload, finalize, release, each at most once. */
  lemma {:induction false} RunInOrder(t: seq<Exchange>, siteId: string, content: seq<bv8>, hash: string)
    requires PhaseAfter(t, siteId, content, hash).Some?
    ensures forall i, j :: 0 <= i < j < |t| ==> StepRank(StepOf(t[i])) < StepRank(StepOf(t[j]))
    ensures !PhaseAfter(t, siteId, content, hash).value.Aborted? ==>
      forall i :: 0 <= i < |t| ==> StepRank(StepOf(t[i])) < PhaseRank(PhaseAfter(t, siteId, content, hash).value)
    decreases |t|
  {
    if t != [] {
      var init, last := t[..|t| - 1], t[|t| - 1];
      var p := PhaseAfter(init, siteId, content, hash).value;
      RunInOrder(init, siteId, content, hash);
      ExpectedStep(p, last, siteId, content, hash);
      assert forall i :: 0 <= i < |init| ==> t[i] == init[i];
    }
  }

  /** A run starts with create-site for the identifier it publishes. */
  lemma RunStartsWithSite(t: seq<Exchange>, siteId: string, content: seq<bv8>, hash: string)
    requires PhaseAfter(t, siteId, content, hash).Some? && t != []
    ensures t[0].SiteCreation? && t[0].siteId == siteId
  {
    StepAt(t, 0, siteId, content, hash);
    assert t[..0] == [];
  }

  /** Every call but the last got a reply that lets the pipeline go on: a
      failure stops every later step. */
  lemma FailureEndsRun(t: seq<Exchange>, siteId: string, content: seq<bv8>, hash: string)
    requires PhaseAfter(t, siteId, content, hash).Some?
    ensures forall i :: 0 <= i < |t| - 1 ==> Succeeded(t[i])
  {
    forall i | 0 <= i < |t| - 1 ensures Succeeded(t[i]) {
      StepAt(t, i, siteId, content, hash);
      StepAt(t, i + 1, siteId, content, hash);
      ExpectedStep(PhaseAfter(t[..i], siteId, content, hash).value, t[i], siteId, content, hash);
      ExpectedStep(PhaseAfter(t[..i + 1], siteId, content, hash).value, t[i + 1], siteId, content, hash);
    }
  }

  /** The upload follows a successful populate exactly when the platform
      listed the hash among the ones it still needs; without that the next
      call is the finalize. */
  lemma UploadIffRequired(t: seq<Exchange>, siteId: string, content: seq<bv8>, hash: string, i: nat)
    requires PhaseAfter(t, siteId, content, hash).Some?
    requires i + 1 < |t| && t[i].FilePopulation? && t[i].populated.Parsed?
    ensures t[i + 1].ContentUpload? <==> UploadNeeded(t[i].populated.value, hash)
    ensures !UploadNeeded(t[i].populated.value, hash) ==> t[i + 1].Finalization?
    ensures t[i + 1].ContentUpload? ==>
      t[i + 1].url == t[i].populated.value.uploadUrl + "/" + hash && t[i + 1].content == content
  {
    StepAt(t, i, siteId, content, hash);
    StepAt(t, i + 1, siteId, content, hash);
  }

  /** An upload is only ever made right after a populate that asked for it. */
  lemma UploadOnlyWhenRequired(t: seq<Exchange>, siteId: string, content: seq<bv8>, hash: string, i: nat)
    requires PhaseAfter(t, siteId, content, hash).Some?
    requires i < |t| && t[i].ContentUpload?
    ensures i > 0 && t[i - 1].FilePopulation? && t[i - 1].populated.Parsed?
    ensures UploadNeeded(t[i - 1].populated.value, hash)
  {
    assert t[..0] == [];
    StepAt(t, i, siteId, content, hash);
    if i > 0 {
      StepAt(t, i - 1, siteId, content, hash);
      assert t[..i - 1 + 1] == t[..i];
    }
  }

  /** A release is created only right after a finalize that succeeded. */
  lemma ReleaseAfterFinalize(t: seq<Exchange>, siteId: string, content: seq<bv8>, hash: string, i: nat)
    requires PhaseAfter(t, siteId, content, hash).Some?
    requires i < |t| && t[i].Activation?
    ensures i >= 2 && t[i - 1].Finalization? && t[i - 1].finalized.Parsed?
    ensures t[1].VersionCreation? && t[1].version.Parsed? && t[i].versionName == t[1].version.value
  {
    assert t[..0] == [];
    StepAt(t, i, siteId, content, hash);
    if i > 0 {
      StepAt(t, i - 1, siteId, content, hash);
      assert t[..i - 1 + 1] == t[..i];
      if i > 1 {
        VersionCarried(t, siteId, content, hash, i);
      }
    }
  }

  /** From the populate on, every phase works on the version that the
      second call created. */
  lemma {:induction false} VersionCarried(t: seq<Exchange>, siteId: string, content: seq<bv8>, hash: string, i: nat)
    requires PhaseAfter(t, siteId, content, hash).Some? && 2 <= i <= |t|
    ensures PhaseAfter(t[..i], siteId, content, hash).Some?
    ensures var p := PhaseAfter(t[..i], siteId, content, hash).value;
      p.Aborted? || p.Released? || (t[1].VersionCreation? && t[1].version.Parsed? && VersionOf(p) == t[1].version.value)
    decreases i
  {
    StepAt(t, i - 1, siteId, content, hash);
    assert t[..i - 1 + 1] == t[..i];
    if i == 2 {
      StepAt(t, 0, siteId, content, hash);
      assert t[..0] == [] && t[..0 + 1] == t[..1];
    } else {
      VersionCarried(t, siteId, content, hash, i - 1);
    }
  }

  /** A complete run (one that ended in a terminal phase) published the
      page exactly when its last call was a release that succeeded. */
  lemma CompleteRun(t: seq<Exchange>, siteId: string, content: seq<bv8>, hash: string)
    requires PhaseAfter(t, siteId, content, hash).Some?
    requires Terminal(PhaseAfter(t, siteId, content, hash).value)
    ensures t != []
    ensures var last := t[|t| - 1];
      PhaseAfter(t, siteId, content, hash).value.Released? <==> last.Activation? && Succeeded(last)
  {
    assert t != [];
    StepAt(t, |t| - 1, siteId, content, hash);
    assert t[..|t| - 1 + 1] == t;
    ExpectedStep(PhaseAfter(t[..|t| - 1], siteId, content, hash).value, t[|t| - 1], siteId, content, hash);
  }

  /** When create-site fails in any way but the tolerated 409, the run
      stops there and reports the reply. */
  lemma SiteRejectionStops(t: seq<Exchange>, siteId: string, content: seq<bv8>, hash: string)
    requires PhaseAfter(t, siteId, content, hash).Some? && t != []
    requires t[0].SiteCreation? && !SiteReady(t[0].created)
    ensures |t| == 1
    ensures PhaseAfter(t, siteId, content, hash) == Some(Aborted(SiteRejected(t[0].created)))
  {
    RunStartsWithSite(t, siteId, content, hash);
    FailureEndsRun(t, siteId, content, hash);
    StepAt(t, 0, siteId, content, hash);
    assert t[..0] == [] && t[..1] == t;
  }

  // ---------------------------------------------------------------------
  // The create-site tolerance on particular replies

  /** `body` says `phrase` at position `i`, in any mix of cases. */
  predicate SaysAt(body: string, phrase: string, i: nat) {
    i + |phrase| <= |body| && Lower(body[i..i + |phrase|]) == phrase
  }

  /** A 409 whose body says `already exists` or `already in use` anywhere,
      in any mix of cases, is tolerated. */
  lemma AlreadyExistsTolerated(body: string, phrase: string, i: nat)
    requires phrase == "already exists" || phrase == "already in use"
    requires SaysAt(body, phrase, i)
    ensures SiteReady(Some(HttpReply(409, body)))
  {
    LowerSlice(body, i, i + |phrase|);
    ContainsAt(Lower(body), phrase, i);
  }

  /** A 409 whose body says neither phrase, in any case, is fatal. */
  lemma OtherConflictFatal(body: string)
    requires forall i: nat :: !SaysAt(body, "already exists", i) && !SaysAt(body, "already in use", i)
    ensures !SiteReady(Some(HttpReply(409, body)))
  {
    var low := Lower(body);
    if SiteReady(Some(HttpReply(409, body))) {
      var phrase := if Contains(low, "already exists") then "already exists" else "already in use";
      assert Contains(low, phrase);
      var i: nat :| i <= |low| && OccursAt(low, phrase, i);
      LowerSlice(body, i, i + |phrase|);
      assert SaysAt(body, phrase, i);
      assert false;
    }
  }

  /** The words only help with a 409: any other failed status is fatal. */
  lemma OnlyConflictTolerated(r: HttpReply)
    requires !r.Ok() && r.status != 409
    ensures !SiteReady(Some(r))
  {
  }
}

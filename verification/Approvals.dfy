/** Deployment approvals: unique votes, quorum, veto, and what every run of the handlers keeps. */
module Approvals {
  import opened Common

  datatype Status = Pending | Approved | Rejected
  datatype Ballot = Approve | Reject
  datatype Vote = Vote(reviewer: string, ballot: Ballot)

  /** One approval row together with its votes in the order cast. */
  datatype Approval = Approval(requester: string, status: Status, requiredApprovals: int, expiresAt: Option<int>,
                               votes: seq<Vote>)

  datatype APIKey = APIKey(id: string, keyHash: string)
  datatype Quorum = Quorum(minApprovers: int, reviewerKeys: seq<string>)

  /** The API key table as one request finds it; None when it cannot be read. */
  type Keys = Option<seq<APIKey>>

  /** What is fixed during a run: entitlement and quorum configuration. */
  datatype Config = Config(licensed: bool, quorum: Option<Quorum>)

  type Table = map<string, Approval>

  // ---- Quorum -----------------------------------------------------------------------------

  /** The key hashes for configured key ids, in key-table order; empty also when the table is unreadable. */
  function Hashes(keys: Keys, ids: seq<string>): (h: seq<string>) {
    if ids == [] || keys.None? then [] else Selected(keys.value, ids)
  }

  function Selected(keys: seq<APIKey>, ids: seq<string>): (h: seq<string>) {
    if keys == [] then []
    else
      var front := Selected(keys[..|keys| - 1], ids);
      if keys[|keys| - 1].id in ids then front + [keys[|keys| - 1].keyHash] else front
  }

  /** Exactly the hashes of listed keys, one for each listed key of the table, and in its order. */
  lemma {:induction false} SelectedMembers(keys: seq<APIKey>, ids: seq<string>, h: string)
    ensures h in Selected(keys, ids) <==> exists i :: 0 <= i < |keys| && keys[i].id in ids && keys[i].keyHash == h
  {
    if keys != [] {
      var n := |keys| - 1;
      SelectedMembers(keys[..n], ids, h);
      if h in Selected(keys[..n], ids) {
        var i :| 0 <= i < n && keys[..n][i].id in ids && keys[..n][i].keyHash == h;
        assert keys[i].keyHash == h;
      }
      if i :| 0 <= i < |keys| && keys[i].id in ids && keys[i].keyHash == h {
        if i < n { assert keys[..n][i] == keys[i]; }
      }
    }
  }

  lemma {:induction false} SelectedConcat(a: seq<APIKey>, b: seq<APIKey>, ids: seq<string>)
    ensures Selected(a + b, ids) == Selected(a, ids) + Selected(b, ids)
  {
    if b == [] {
      assert a + b == a;
    } else {
      SelectedConcat(a, b[..|b| - 1], ids);
      assert (a + b)[..|a + b| - 1] == a + b[..|b| - 1];
    }
  }

  method ResolveReviewerKeyHashes(keys: Keys, ids: seq<string>) returns (hashes: seq<string>)
    ensures hashes == Hashes(keys, ids)
    ensures forall h :: h in hashes <==> keys.Some? && exists k :: k in keys.value && k.id in ids && k.keyHash == h
  {
    if |ids| == 0 { return []; }
    if keys.None? { return []; }
    hashes := [];
    for i := 0 to |keys.value|
      invariant hashes == Selected(keys.value[..i], ids)
    {
      assert keys.value[..i + 1][..i] == keys.value[..i];
      if keys.value[i].id in ids { hashes := hashes + [keys.value[i].keyHash]; }
    }
    assert keys.value[..|keys.value|] == keys.value;
    forall h ensures h in hashes <==> exists k :: k in keys.value && k.id in ids && k.keyHash == h {
      SelectedMembers(keys.value, ids, h);
      if k :| k in keys.value && k.id in ids && k.keyHash == h {
        var i :| 0 <= i < |keys.value| && keys.value[i] == k;
      }
    }
  }

  function ReviewerKeys(cfg: Config): (ids: seq<string>) {
    if cfg.quorum.Some? then cfg.quorum.value.reviewerKeys else []
  }

  function AllowedHashes(cfg: Config, keys: Keys): (h: seq<string>) { Hashes(keys, ReviewerKeys(cfg)) }

  /** The names whose approving votes count: all of them when no hash is listed. */
  function Voters(allowed: seq<string>, votes: seq<Vote>): (s: set<string>) {
    set i | 0 <= i < |votes| && votes[i].ballot.Approve? && (allowed == [] || votes[i].reviewer in allowed)
      :: votes[i].reviewer
  }

  function Required(cfg: Config, a: Approval): (n: int)
    ensures n >= 1
  {
    if cfg.quorum.Some? && cfg.quorum.value.minApprovers > 0 then cfg.quorum.value.minApprovers
    else if a.requiredApprovals > 0 then a.requiredApprovals
    else 1
  }

  ghost predicate UniqueReviewers(votes: seq<Vote>) {
    forall i, j :: 0 <= i < j < |votes| ==> votes[i].reviewer != votes[j].reviewer
  }

  lemma VotersAppend(allowed: seq<string>, votes: seq<Vote>, v: Vote)
    ensures Voters(allowed, votes + [v]) ==
            Voters(allowed, votes)
              + if v.ballot.Approve? && (allowed == [] || v.reviewer in allowed) then {v.reviewer} else {}
  {
    var t := votes + [v];
    forall x | x in Voters(allowed, votes) ensures x in Voters(allowed, t) {
      var i :| 0 <= i < |votes| && votes[i].reviewer == x
               && votes[i].ballot.Approve? && (allowed == [] || votes[i].reviewer in allowed);
      assert t[i] == votes[i];
    }
    assert t[|votes|] == v;
  }

  lemma NewVoter(allowed: seq<string>, votes: seq<Vote>, v: Vote)
    requires forall i :: 0 <= i < |votes| ==> votes[i].reviewer != v.reviewer
    ensures v.reviewer !in Voters(allowed, votes)
  {
  }

  /** Counting rows counts distinct voters, because each reviewer has at most one vote. */
  method CheckApprovalQuorumFiltered(a: Approval, reviewerKeys: seq<string>, minApprovers: int)
    returns (reached: bool, count: nat, required: int)
    requires UniqueReviewers(a.votes)
    ensures count == |Voters(reviewerKeys, a.votes)|
    ensures required == if minApprovers > 0 then minApprovers
                        else if a.requiredApprovals > 0 then a.requiredApprovals else 1
    ensures reached <==> |Voters(reviewerKeys, a.votes)| >= required
  {
    required := minApprovers;
    if required <= 0 { required := a.requiredApprovals; }
    if required <= 0 { required := 1; }
    count := 0;
    for i := 0 to |a.votes|
      invariant count == |Voters(reviewerKeys, a.votes[..i])|
    {
      var v := a.votes[i];
      assert a.votes[..i + 1] == a.votes[..i] + [v];
      VotersAppend(reviewerKeys, a.votes[..i], v);
      NewVoter(reviewerKeys, a.votes[..i], v);
      if v.ballot.Approve? && (|reviewerKeys| == 0 || v.reviewer in reviewerKeys) { count := count + 1; }
    }
    assert a.votes[..|a.votes|] == a.votes;
    reached := count >= required;
  }

  // ---- One request ------------------------------------------------------------------------

  datatype Action =
    | RequestApproval(requiredApprovals: int, expiresAt: Option<int>)
    | ApproveDeployment
    | RejectDeployment

  /**
   * An authenticated request: the caller's key hash, whether it is an admin key, whether the body parses, key table
   * and clock.
   */
  datatype Request = Request(deployment: string, action: Action, caller: string, admin: bool, bodyOk: bool, keys: Keys,
                             now: int)

  predicate HasVoted(a: Approval, reviewer: string) {
    exists i :: 0 <= i < |a.votes| && a.votes[i].reviewer == reviewer
  }

  predicate Expired(a: Approval, now: int) { a.expiresAt.Some? && now > a.expiresAt.value }

  datatype VoteError = NotPending | SelfApproval | Duplicate

  /** RecordApprovalVote: refused unless pending, by another than the requester, and the first by this reviewer. */
  function RecordVote(a: Approval, reviewer: string, ballot: Ballot): (r: Result<Approval, VoteError>) {
    if a.status != Pending then Err(NotPending)
    else if a.requester == reviewer then Err(SelfApproval)
    else if HasVoted(a, reviewer) then Err(Duplicate)
    else Ok(a.(votes := a.votes + [Vote(reviewer, ballot)]))
  }

  /** The guards both handlers share, in order; None lets the request through. */
  datatype Response = LicenseRequired | Forbidden | BadRequest | NotFound | NotPendingConflict | ExpiredGone
                    | SelfApprovalDenied | AlreadyVoted | Voted(quorumReached: bool, soFar: nat, needed: int)
                    | RejectedOK | Requested

  function Guard(cfg: Config, t: Table, r: Request): (resp: Option<Response>) {
    if !cfg.licensed then Some(LicenseRequired)
    else if !r.admin then Some(Forbidden)
    else if !r.bodyOk then Some(BadRequest)
    else if r.deployment !in t then Some(NotFound)
    else if t[r.deployment].status != Pending then Some(NotPendingConflict)
    else if Expired(t[r.deployment], r.now) then Some(ExpiredGone)
    else None
  }

  function ApproveOutcome(cfg: Config, keys: Keys, a: Approval, reviewer: string): (r: Approval) {
    match RecordVote(a, reviewer, Approve)
    case Err(_) => a
    case Ok(b) => if |Voters(AllowedHashes(cfg, keys), b.votes)| >= Required(cfg, b) then b.(status := Approved) else b
  }

  function RejectOutcome(a: Approval, reviewer: string): (r: Approval) {
    if a.requester == reviewer then a
    else
      var voted := RecordVote(a, reviewer, Reject);
      (if voted.Ok? then voted.value else a).(status := Rejected)
  }

  /** The table after one request, each handler taken as one atomic step. */
  function Step(cfg: Config, t: Table, r: Request): (t': Table) {
    match r.action
    case RequestApproval(n, expires) =>
      if r.deployment in t then t
      else t[r.deployment := Approval(r.caller, Pending, if n <= 0 then 1 else n, expires, [])]
    case ApproveDeployment =>
      if Guard(cfg, t, r).Some? then t else t[r.deployment := ApproveOutcome(cfg, r.keys, t[r.deployment], r.caller)]
    case RejectDeployment =>
      if Guard(cfg, t, r).Some? then t else t[r.deployment := RejectOutcome(t[r.deployment], r.caller)]
  }

  function Run(cfg: Config, rs: seq<Request>): (t: Table) {
    if rs == [] then map[] else Step(cfg, Run(cfg, rs[..|rs| - 1]), rs[|rs| - 1])
  }

  /** The handlers over the shared table. */
  class Server {
    const cfg: Config
    var table: Table

    ghost predicate Valid()
      reads this
    {
      forall d :: d in table ==> UniqueReviewers(table[d].votes)
    }

    constructor (cfg: Config)
      ensures Valid() && this.cfg == cfg && table == map[]
    {
      this.cfg := cfg;
      table := map[];
    }

    method RequestDeploymentApproval(r: Request)
      requires Valid() && r.action.RequestApproval?
      modifies this
      ensures Valid() && table == Step(cfg, old(table), r)
    {
      var required := r.action.requiredApprovals;
      if required <= 0 { required := 1; }
      if r.deployment !in table {
        table := table[r.deployment := Approval(r.caller, Pending, required, r.action.expiresAt, [])];
      }
    }

    /** Records the vote and releases the deployment exactly when this vote completes the quorum. */
    method HandleApproveDeployment(r: Request) returns (resp: Response)
      requires Valid() && r.action.ApproveDeployment?
      modifies this
      ensures Valid() && table == Step(cfg, old(table), r)
      ensures Guard(cfg, old(table), r).Some? ==> resp == Guard(cfg, old(table), r).value
      ensures resp.Voted? ==>
                && r.deployment in table && (resp.quorumReached <==> table[r.deployment].status == Approved)
                && resp.soFar == |Voters(AllowedHashes(cfg, r.keys), table[r.deployment].votes)|
                && resp.needed == Required(cfg, table[r.deployment])
      ensures resp.SelfApprovalDenied? || resp.AlreadyVoted? ==> table == old(table)
      ensures Guard(cfg, old(table), r).None? ==>
                var a := old(table)[r.deployment];
                if a.requester == r.caller then resp == SelfApprovalDenied
                else if HasVoted(a, r.caller) then resp == AlreadyVoted
                else resp.Voted? && table[r.deployment].votes == a.votes + [Vote(r.caller, Approve)]
    {
      if !cfg.licensed { return LicenseRequired; }
      if !r.admin { return Forbidden; }
      if !r.bodyOk { return BadRequest; }
      if r.deployment !in table { return NotFound; }
      var a := table[r.deployment];
      if a.status != Pending { return NotPendingConflict; }
      if a.expiresAt.Some? && r.now > a.expiresAt.value { return ExpiredGone; }
      var voted := RecordVote(a, r.caller, Approve);
      if voted.Err? {
        assert table == table[r.deployment := a];
        return if voted.error == SelfApproval then SelfApprovalDenied else AlreadyVoted;
      }
      var b := voted.value;
      var minApprovers := 0;
      var hashes: seq<string> := [];
      if cfg.quorum.Some? {
        hashes := ResolveReviewerKeyHashes(r.keys, cfg.quorum.value.reviewerKeys);
        minApprovers := cfg.quorum.value.minApprovers;
      }
      var reached, approved, required := CheckApprovalQuorumFiltered(b, hashes, minApprovers);
      if reached { b := b.(status := Approved); }
      table := table[r.deployment := b];
      return Voted(reached, approved, required);
    }

    /** One veto is enough: a rejection by anyone but the requester settles a pending approval. */
    method HandleRejectDeployment(r: Request) returns (resp: Response)
      requires Valid() && r.action.RejectDeployment?
      modifies this
      ensures Valid() && table == Step(cfg, old(table), r)
      ensures Guard(cfg, old(table), r).Some? ==> resp == Guard(cfg, old(table), r).value
      ensures Guard(cfg, old(table), r).None? ==>
                if old(table)[r.deployment].requester == r.caller then resp == SelfApprovalDenied && table == old(table)
                else
                  && resp == RejectedOK && table[r.deployment].status == Rejected
                  && table[r.deployment].votes ==
                     old(table)[r.deployment].votes
                       + if HasVoted(old(table)[r.deployment], r.caller) then [] else [Vote(r.caller, Reject)]
    {
      if !cfg.licensed { return LicenseRequired; }
      if !r.admin { return Forbidden; }
      if !r.bodyOk { return BadRequest; }
      if r.deployment !in table { return NotFound; }
      var a := table[r.deployment];
      if a.status != Pending { return NotPendingConflict; }
      if a.expiresAt.Some? && r.now > a.expiresAt.value { return ExpiredGone; }
      if a.requester == r.caller {
        assert table == table[r.deployment := a];
        return SelfApprovalDenied;
      }
      var voted := RecordVote(a, r.caller, Reject);
      if voted.Ok? { a := voted.value; }
      table := table[r.deployment := a.(status := Rejected)];
      return RejectedOK;
    }

    /** The read handler; without readable votes it answers with the approval alone. */
    method HandleGetApproval(deployment: string, keys: Keys, votesReadable: bool) returns (v: ApprovalView)
      requires Valid()
      ensures v.Unlicensed? <==> !cfg.licensed
      ensures v.Unknown? <==> cfg.licensed && deployment !in table
      ensures v.WithoutQuorum? <==> cfg.licensed && deployment in table && !votesReadable
      ensures v.WithoutQuorum? || v.WithQuorum? ==> v.approval == table[deployment]
      ensures v.WithQuorum? ==>
                var q, shown := v.quorum, Shown(cfg, keys, table[deployment].votes);
                && q.required == Required(cfg, table[deployment])
                && |q.approvers| == q.received == |shown| && (forall x :: x in q.approvers <==> x in shown)
                && q.remaining == if q.required > q.received then q.required - q.received else 0
    {
      if !cfg.licensed { return Unlicensed; }
      if deployment !in table { return Unknown; }
      if !votesReadable { return WithoutQuorum(table[deployment]); }
      var a := table[deployment];
      var required := a.requiredApprovals;
      if required <= 0 { required := 1; }
      var restricted, hashes := false, [];
      if cfg.quorum.Some? {
        if cfg.quorum.value.minApprovers > 0 { required := cfg.quorum.value.minApprovers; }
        if |cfg.quorum.value.reviewerKeys| > 0 {
          hashes := ResolveReviewerKeyHashes(keys, cfg.quorum.value.reviewerKeys);
          restricted := true;
        }
      }
      var approvers := CollectApprovers(a.votes, restricted, hashes);
      ApprovingIsShown(cfg, keys, a.votes);
      var remaining := required - |approvers|;
      if remaining < 0 { remaining := 0; }
      return WithQuorum(a, QuorumStatus(required, |approvers|, remaining, approvers));
    }
  }

  datatype QuorumStatus = QuorumStatus(required: int, received: nat, remaining: int, approvers: seq<string>)

  datatype ApprovalView =
    | Unlicensed
    | Unknown
    | WithoutQuorum(approval: Approval)
    | WithQuorum(approval: Approval, quorum: QuorumStatus)

  /** The approvers the read handler shows: a configured but unresolvable reviewer list shows nobody. */
  function Shown(cfg: Config, keys: Keys, votes: seq<Vote>): (s: set<string>) {
    if ReviewerKeys(cfg) == [] then Voters([], votes)
    else if AllowedHashes(cfg, keys) == [] then {}
    else Voters(AllowedHashes(cfg, keys), votes)
  }

  /** The approving reviewers, or with a restriction those among them with a listed hash. */
  ghost function Approving(restricted: bool, hashes: seq<string>, votes: seq<Vote>): (s: set<string>) {
    set i | 0 <= i < |votes| && votes[i].ballot.Approve? && (!restricted || votes[i].reviewer in hashes)
      :: votes[i].reviewer
  }

  lemma ApprovingIsShown(cfg: Config, keys: Keys, votes: seq<Vote>)
    ensures Approving(ReviewerKeys(cfg) != [], AllowedHashes(cfg, keys), votes) == Shown(cfg, keys, votes)
  {
  }

  lemma ApprovingAppend(restricted: bool, hashes: seq<string>, votes: seq<Vote>, v: Vote)
    requires forall i :: 0 <= i < |votes| ==> votes[i].reviewer != v.reviewer
    ensures v.reviewer !in Approving(restricted, hashes, votes)
    ensures Approving(restricted, hashes, votes + [v]) ==
            Approving(restricted, hashes, votes)
              + if v.ballot.Approve? && (!restricted || v.reviewer in hashes) then {v.reviewer} else {}
  {
    var t := votes + [v];
    forall x | x in Approving(restricted, hashes, votes) ensures x in Approving(restricted, hashes, t) {
      var i :| 0 <= i < |votes| && votes[i].reviewer == x
               && votes[i].ballot.Approve? && (!restricted || votes[i].reviewer in hashes);
      assert t[i] == votes[i];
    }
    assert t[|votes|] == v;
  }

  method CollectApprovers(votes: seq<Vote>, restricted: bool, hashes: seq<string>) returns (approvers: seq<string>)
    requires UniqueReviewers(votes)
    ensures Lists(approvers, Approving(restricted, hashes, votes))
  {
    approvers := [];
    ghost var shown := {};
    for i := 0 to |votes|
      invariant shown == Approving(restricted, hashes, votes[..i]) && Lists(approvers, shown)
    {
      var v := votes[i];
      assert votes[..i + 1] == votes[..i] + [v];
      ApprovingAppend(restricted, hashes, votes[..i], v);
      if v.ballot.Approve? && (!restricted || v.reviewer in hashes) {
        ListsAdd(approvers, shown, v.reviewer);
        approvers := approvers + [v.reviewer];
        shown := shown + {v.reviewer};
      }
    }
    assert votes[..|votes|] == votes;
  }

  /** The sequence holds exactly the set, each member once. */
  ghost predicate Lists(xs: seq<string>, s: set<string>) {
    |xs| == |s| && forall x :: x in xs <==> x in s
  }

  lemma ListsAdd(xs: seq<string>, s: set<string>, x: string)
    requires Lists(xs, s) && x !in s
    ensures Lists(xs + [x], s + {x})
  {
  }

  // ---- Every run --------------------------------------------------------------------------

  /** One vote per reviewer, none by the requester, and nothing but approvals until somebody rejects. */
  ghost predicate Fair(a: Approval) {
    && UniqueReviewers(a.votes)
    && (forall i :: 0 <= i < |a.votes| ==> a.votes[i].reviewer != a.requester)
    && (a.status != Rejected ==> AllApprove(a.votes))
  }

  ghost predicate AllApprove(votes: seq<Vote>) {
    forall i :: 0 <= i < |votes| ==> votes[i].ballot.Approve?
  }

  /** The approval's counted voters are enough under this key table. */
  ghost predicate Quorate(cfg: Config, keys: Keys, a: Approval) {
    |Voters(AllowedHashes(cfg, keys), a.votes)| >= Required(cfg, a)
  }

  lemma VoteKeepsUnique(a: Approval, reviewer: string, ballot: Ballot)
    requires Fair(a) && RecordVote(a, reviewer, ballot).Ok?
    ensures var b := RecordVote(a, reviewer, ballot).value;
            UniqueReviewers(b.votes) && forall i :: 0 <= i < |b.votes| ==> b.votes[i].reviewer != b.requester
  {
    var b := RecordVote(a, reviewer, ballot).value;
    forall i, j | 0 <= i < j < |b.votes| ensures b.votes[i].reviewer != b.votes[j].reviewer {
      assert b.votes[i] == a.votes[i];
    }
  }

  lemma ApproveKeepsFair(cfg: Config, keys: Keys, a: Approval, reviewer: string)
    requires Fair(a) && a.status == Pending
    ensures Fair(ApproveOutcome(cfg, keys, a, reviewer))
  {
    if RecordVote(a, reviewer, Approve).Ok? { VoteKeepsUnique(a, reviewer, Approve); }
  }

  lemma RejectKeepsFair(a: Approval, reviewer: string)
    requires Fair(a) && a.status == Pending
    ensures Fair(RejectOutcome(a, reviewer))
  {
    if RecordVote(a, reviewer, Reject).Ok? { VoteKeepsUnique(a, reviewer, Reject); }
  }

  lemma StepKeepsFair(cfg: Config, t: Table, r: Request)
    requires forall d :: d in t ==> Fair(t[d])
    ensures forall d :: d in Step(cfg, t, r) ==> Fair(Step(cfg, t, r)[d])
  {
    if !r.action.RequestApproval? && Guard(cfg, t, r).None? {
      ApproveKeepsFair(cfg, r.keys, t[r.deployment], r.caller);
      RejectKeepsFair(t[r.deployment], r.caller);
    }
  }

  lemma {:induction false} RunFair(cfg: Config, rs: seq<Request>)
    ensures forall d :: d in Run(cfg, rs) ==> Fair(Run(cfg, rs)[d])
  {
    if rs != [] {
      RunFair(cfg, rs[..|rs| - 1]);
      StepKeepsFair(cfg, Run(cfg, rs[..|rs| - 1]), rs[|rs| - 1]);
    }
  }

  /** Request k cast the last of the votes that the approval of d holds now, while it was pending. */
  ghost predicate LastVoteBy(cfg: Config, rs: seq<Request>, k: nat, d: string) {
    && k < |rs| && rs[k].deployment == d && rs[k].action.ApproveDeployment? && d in Run(cfg, rs)
    && d in Run(cfg, rs[..k]) && Run(cfg, rs[..k])[d].status == Pending
    && Run(cfg, rs)[d].votes == Run(cfg, rs[..k])[d].votes + [Vote(rs[k].caller, Approve)]
  }

  /** The last vote was cast by a request under whose key table the approval was, or was not, complete. */
  ghost predicate DecidedAs(cfg: Config, rs: seq<Request>, d: string, complete: bool)
    requires d in Run(cfg, rs)
  {
    exists k: nat :: LastVoteBy(cfg, rs, k, d) && Quorate(cfg, rs[k].keys, Run(cfg, rs)[d]) == complete
  }

  /** Which request decided what, as an invariant of runs. */
  ghost predicate Decided(cfg: Config, rs: seq<Request>, d: string) {
    d in Run(cfg, rs) ==>
      var a := Run(cfg, rs)[d];
      && (a.status == Pending ==> a.votes == [] || DecidedAs(cfg, rs, d, false))
      && (a.status == Approved ==> DecidedAs(cfg, rs, d, true))
  }

  lemma DecidedKept(cfg: Config, rs: seq<Request>, d: string, complete: bool)
    requires rs != [] && d in Run(cfg, rs[..|rs| - 1]) && d in Run(cfg, rs)
    requires Run(cfg, rs)[d] == Run(cfg, rs[..|rs| - 1])[d] && DecidedAs(cfg, rs[..|rs| - 1], d, complete)
    ensures DecidedAs(cfg, rs, d, complete)
  {
    var front := rs[..|rs| - 1];
    var k: nat :| LastVoteBy(cfg, front, k, d) && Quorate(cfg, front[k].keys, Run(cfg, front)[d]) == complete;
    assert front[..k] == rs[..k] && front[k] == rs[k];
    assert LastVoteBy(cfg, rs, k, d);
  }

  lemma DecidedNow(cfg: Config, rs: seq<Request>)
    requires rs != []
    requires var r, t := rs[|rs| - 1], Run(cfg, rs[..|rs| - 1]);
             r.action.ApproveDeployment? && Guard(cfg, t, r).None? && RecordVote(t[r.deployment], r.caller, Approve).Ok?
    ensures Decided(cfg, rs, rs[|rs| - 1].deployment)
  {
    var k, d := |rs| - 1, rs[|rs| - 1].deployment;
    assert LastVoteBy(cfg, rs, k, d);
  }

  lemma {:induction false} RunDecided(cfg: Config, rs: seq<Request>, d: string)
    ensures Decided(cfg, rs, d)
  {
    if rs != [] {
      var front, r := rs[..|rs| - 1], rs[|rs| - 1];
      var t := Run(cfg, front);
      RunDecided(cfg, front, d);
      if d in t && Step(cfg, t, r)[d] == t[d] {
        if t[d].status == Approved { DecidedKept(cfg, rs, d, true); }
        if t[d].status == Pending && t[d].votes != [] { DecidedKept(cfg, rs, d, false); }
      } else if d in t {
        if r.action.ApproveDeployment? { DecidedNow(cfg, rs); }
      }
    }
  }

  /**
   * With the key table changing at will between requests: an approved deployment had a quorum of distinct counted
   * voters under the key table of the request that cast the last vote, and a pending one with votes had none under it.
   * The requester never counts, under any table.
   */
  lemma RunQuorum(cfg: Config, rs: seq<Request>, d: string, keys: Keys)
    requires d in Run(cfg, rs)
    ensures var a := Run(cfg, rs)[d];
            && (a.status == Approved ==> DecidedAs(cfg, rs, d, true))
            && (a.status == Pending ==> a.votes == [] || DecidedAs(cfg, rs, d, false))
            && a.requester !in Voters(AllowedHashes(cfg, keys), a.votes)
  {
    RunFair(cfg, rs);
    RunDecided(cfg, rs, d);
  }

  /** One outcome of either handler keeps "approved exactly when quorate", under the key table it was decided with. */
  lemma OutcomeQuorum(cfg: Config, keys: Keys, a: Approval, reviewer: string)
    requires a.status == Pending && !Quorate(cfg, keys, a)
    ensures var b := ApproveOutcome(cfg, keys, a, reviewer); b.status == Approved <==> Quorate(cfg, keys, b)
    ensures RejectOutcome(a, reviewer).status != Approved && !Quorate(cfg, keys, RejectOutcome(a, reviewer))
  {
    VotersAppend(AllowedHashes(cfg, keys), a.votes, Vote(reviewer, Reject));
  }

  lemma SameKeysStep(cfg: Config, t: Table, r: Request, d: string)
    requires d in Step(cfg, t, r) && (d in t ==> (t[d].status == Approved <==> Quorate(cfg, r.keys, t[d])))
    ensures Step(cfg, t, r)[d].status == Approved <==> Quorate(cfg, r.keys, Step(cfg, t, r)[d])
  {
    if d !in t {
      assert Voters(AllowedHashes(cfg, r.keys), Step(cfg, t, r)[d].votes) == {};
    } else if t[d].status == Pending {
      OutcomeQuorum(cfg, r.keys, t[d], r.caller);
    } else {
      SettledStep(cfg, t, r, d);
    }
  }

  /** While the key table stays the same, approved is exactly quorum reached. */
  lemma {:induction false} SameKeysQuorum(cfg: Config, rs: seq<Request>, d: string, keys: Keys)
    requires d in Run(cfg, rs) && forall i :: 0 <= i < |rs| ==> rs[i].keys == keys
    ensures Run(cfg, rs)[d].status == Approved <==> Quorate(cfg, keys, Run(cfg, rs)[d])
  {
    if rs != [] {
      var front := rs[..|rs| - 1];
      if d in Run(cfg, front) { SameKeysQuorum(cfg, front, d, keys); }
      SameKeysStep(cfg, Run(cfg, front), rs[|rs| - 1], d);
    }
  }

  /** A settled approval never changes again: not its status, not its votes. */
  lemma SettledStep(cfg: Config, t: Table, r: Request, d: string)
    requires d in t && t[d].status != Pending
    ensures d in Step(cfg, t, r) && Step(cfg, t, r)[d] == t[d]
  {
  }

  lemma {:induction false} SettledForever(cfg: Config, rs: seq<Request>, k: nat, d: string)
    requires k <= |rs| && d in Run(cfg, rs[..k]) && Run(cfg, rs[..k])[d].status != Pending
    ensures d in Run(cfg, rs) && Run(cfg, rs)[d] == Run(cfg, rs[..k])[d]
  {
    if k < |rs| {
      var front := rs[..|rs| - 1];
      assert front[..k] == rs[..k];
      SettledForever(cfg, front, k, d);
      SettledStep(cfg, Run(cfg, front), rs[|rs| - 1], d);
    } else {
      assert rs[..k] == rs;
    }
  }

  /** A request touches no other deployment's approval. */
  lemma StepFrame(cfg: Config, t: Table, r: Request, d: string)
    requires d != r.deployment
    ensures d in Step(cfg, t, r) <==> d in t
    ensures d in t ==> Step(cfg, t, r)[d] == t[d]
  {
  }

  // ---- Who asked and who voted ------------------------------------------------------------

  /** Request k created the approval of d, and it carries what that request said. */
  ghost predicate CreatedBy(cfg: Config, rs: seq<Request>, k: nat, d: string) {
    && k < |rs| && rs[k].deployment == d && rs[k].action.RequestApproval? && d !in Run(cfg, rs[..k])
    && d in Run(cfg, rs)
    && var a := Run(cfg, rs)[d];
       && a.requester == rs[k].caller && a.expiresAt == rs[k].action.expiresAt
       && a.requiredApprovals == if rs[k].action.requiredApprovals <= 0 then 1 else rs[k].action.requiredApprovals
  }

  lemma StepKeepsTerms(cfg: Config, t: Table, r: Request, d: string)
    requires d in t
    ensures d in Step(cfg, t, r)
    ensures var a, b := t[d], Step(cfg, t, r)[d];
            a.requester == b.requester && a.expiresAt == b.expiresAt && a.requiredApprovals == b.requiredApprovals
  {
  }

  /** Over every run, each approval carries the requester, requirement and expiry of the request that created it. */
  lemma {:induction false} RunCreated(cfg: Config, rs: seq<Request>, d: string)
    requires d in Run(cfg, rs)
    ensures exists k: nat :: CreatedBy(cfg, rs, k, d)
  {
    var n := |rs| - 1;
    var front := rs[..n];
    if d in Run(cfg, front) {
      RunCreated(cfg, front, d);
      var k: nat :| CreatedBy(cfg, front, k, d);
      StepKeepsTerms(cfg, Run(cfg, front), rs[n], d);
      assert front[..k] == rs[..k] && front[k] == rs[k];
      assert CreatedBy(cfg, rs, k, d);
    } else {
      assert CreatedBy(cfg, rs, n, d);
    }
  }

  /** So whoever asked for a deployment has cast none of the votes on it. */
  lemma NoSelfApproval(cfg: Config, rs: seq<Request>, k: nat, d: string)
    requires CreatedBy(cfg, rs, k, d)
    ensures forall i :: 0 <= i < |Run(cfg, rs)[d].votes| ==> Run(cfg, rs)[d].votes[i].reviewer != rs[k].caller
  {
    RunFair(cfg, rs);
  }

  /** Request j cast this vote: a licensed, well-formed admin request on a pending approval that had not expired. */
  ghost predicate CastBy(cfg: Config, rs: seq<Request>, j: nat, d: string, v: Vote) {
    && j < |rs| && rs[j].deployment == d && rs[j].caller == v.reviewer && cfg.licensed && rs[j].admin && rs[j].bodyOk
    && (if v.ballot.Approve? then rs[j].action.ApproveDeployment? else rs[j].action.RejectDeployment?)
    && d in Run(cfg, rs[..j])
    && var a := Run(cfg, rs[..j])[d];
       a.status == Pending && (a.expiresAt.None? || rs[j].now <= a.expiresAt.value)
  }

  lemma StepVotes(cfg: Config, t: Table, r: Request, d: string, v: Vote)
    requires d in Step(cfg, t, r) && v in Step(cfg, t, r)[d].votes && (d in t ==> v !in t[d].votes)
    ensures d in t && r.deployment == d && r.caller == v.reviewer && cfg.licensed && r.admin && r.bodyOk
    ensures if v.ballot.Approve? then r.action.ApproveDeployment? else r.action.RejectDeployment?
    ensures t[d].status == Pending && (t[d].expiresAt.None? || r.now <= t[d].expiresAt.value)
  {
  }

  /** Over every run, each vote was cast by such a request of its own voter. */
  lemma {:induction false} RunVotes(cfg: Config, rs: seq<Request>, d: string, v: Vote)
    requires d in Run(cfg, rs) && v in Run(cfg, rs)[d].votes
    ensures exists j: nat :: CastBy(cfg, rs, j, d, v)
  {
    var n := |rs| - 1;
    var front := rs[..n];
    if d in Run(cfg, front) && v in Run(cfg, front)[d].votes {
      RunVotes(cfg, front, d, v);
      var j: nat :| CastBy(cfg, front, j, d, v);
      assert front[..j] == rs[..j] && front[j] == rs[j];
      assert CastBy(cfg, rs, j, d, v);
    } else {
      StepVotes(cfg, Run(cfg, front), rs[n], d, v);
      assert CastBy(cfg, rs, n, d, v);
    }
  }

  /** And no such request is turned away: by another than the requester, it casts its vote or settles the matter. */
  lemma VoteIsTaken(cfg: Config, t: Table, r: Request)
    requires cfg.licensed && r.admin && r.bodyOk && r.deployment in t && !r.action.RequestApproval?
    requires var a := t[r.deployment];
             a.status == Pending && (a.expiresAt.None? || r.now <= a.expiresAt.value) && a.requester != r.caller
    ensures var a, b := t[r.deployment], Step(cfg, t, r)[r.deployment];
            && (r.action.RejectDeployment? ==> b.status == Rejected)
            && (!HasVoted(a, r.caller) ==>
                  b.votes == a.votes + [Vote(r.caller, if r.action.ApproveDeployment? then Approve else Reject)])
            && (HasVoted(a, r.caller) ==> b.votes == a.votes)
  {
  }

  /** Which refusal a vote request gets before the approval's votes matter: the first that applies, in this order. */
  lemma RefusalMeans(cfg: Config, t: Table, r: Request)
    ensures Guard(cfg, t, r) == Some(LicenseRequired) <==> !cfg.licensed
    ensures Guard(cfg, t, r) == Some(Forbidden) <==> cfg.licensed && !r.admin
    ensures Guard(cfg, t, r) == Some(BadRequest) <==> cfg.licensed && r.admin && !r.bodyOk
    ensures cfg.licensed && r.admin && r.bodyOk ==>
              && (Guard(cfg, t, r) == Some(NotFound) <==> r.deployment !in t)
              && (r.deployment in t ==>
                    var a := t[r.deployment];
                    && (Guard(cfg, t, r) == Some(NotPendingConflict) <==> a.status == Approved || a.status == Rejected)
                    && (Guard(cfg, t, r) == Some(ExpiredGone) <==>
                        a.status == Pending && a.expiresAt.Some? && a.expiresAt.value < r.now))
  {
  }

  /** What is required, and who counts: the configured minimum, else the requested number, else one. */
  lemma QuorumMeans(cfg: Config, keys: Keys, a: Approval)
    ensures Quorate(cfg, keys, a) <==>
            |Voters(AllowedHashes(cfg, keys), a.votes)| >=
              if cfg.quorum.Some? && cfg.quorum.value.minApprovers > 0 then cfg.quorum.value.minApprovers
              else if a.requiredApprovals > 0 then a.requiredApprovals else 1
    ensures forall x :: x in Voters(AllowedHashes(cfg, keys), a.votes) <==>
              Vote(x, Approve) in a.votes && (AllowedHashes(cfg, keys) == [] || x in AllowedHashes(cfg, keys))
  {
    forall x ensures x in Voters(AllowedHashes(cfg, keys), a.votes) <==>
                       Vote(x, Approve) in a.votes && (AllowedHashes(cfg, keys) == [] || x in AllowedHashes(cfg, keys))
    {
      if Vote(x, Approve) in a.votes { var i :| 0 <= i < |a.votes| && a.votes[i] == Vote(x, Approve); }
    }
  }

  // ---- Display versus decision ------------------------------------------------------------

  /**
   * Under one key table, the read handler shows the deciding voters exactly unless a configured reviewer list resolves
   * to no key and somebody approved.
   */
  lemma ShownAgreesExactly(cfg: Config, keys: Keys, a: Approval)
    ensures Shown(cfg, keys, a.votes) == Voters(AllowedHashes(cfg, keys), a.votes) <==>
            (|| ReviewerKeys(cfg) == [] || AllowedHashes(cfg, keys) != []
             || forall i :: 0 <= i < |a.votes| ==> a.votes[i].ballot.Reject?)
  {
    if ReviewerKeys(cfg) != [] && AllowedHashes(cfg, keys) == [] {
      if i :| 0 <= i < |a.votes| && a.votes[i].ballot.Approve? {
        assert a.votes[i].reviewer in Voters([], a.votes);
      } else {
        assert Voters([], a.votes) == {};
      }
    }
  }

  /** A reviewer list naming a key that is gone. */
  function GoneKey(): (cfg: Config) { Config(true, Some(Quorum(0, ["gone"]))) }

  /** Alice asks for one approval, and Bob approves. */
  function AskAndApprove(keys: Keys): (rs: seq<Request>) {
    [Request("d", RequestApproval(1, None), "alice", true, true, keys, 0),
     Request("d", ApproveDeployment, "bob", true, true, keys, 1)]
  }

  lemma RunOfTwo(cfg: Config, a: Request, b: Request)
    ensures Run(cfg, [a, b]) == Step(cfg, Step(cfg, map[], a), b)
  {
    assert [a, b][..1] == [a] && [a][..0] == [];
    assert Run(cfg, [a]) == Step(cfg, Run(cfg, []), a);
  }

  lemma AloneVoter(allowed: seq<string>, v: Vote)
    requires v.ballot.Approve?
    ensures Voters(allowed, [v]) == if allowed == [] || v.reviewer in allowed then {v.reviewer} else {}
    ensures |Voters(allowed, [v])| == if allowed == [] || v.reviewer in allowed then 1 else 0
  {
    assert [v][0] == v;
    assert |{v.reviewer}| == 1;
  }

  /**
   * In that run the configured list names a deleted key: Bob's vote decides the quorum while the read handler shows
   * nobody.
   */
  lemma ShownDisagrees()
    ensures var t := Run(GoneKey(), AskAndApprove(Some([])));
            && "d" in t && t["d"].status == Approved
            && Voters(AllowedHashes(GoneKey(), Some([])), t["d"].votes) == {"bob"}
            && Shown(GoneKey(), Some([]), t["d"].votes) == {}
  {
    var cfg, rs := GoneKey(), AskAndApprove(Some([]));
    assert Selected([], ["gone"]) == [];
    assert AllowedHashes(cfg, Some([])) == [];
    RunOfTwo(cfg, rs[0], rs[1]);
    assert [] + [Vote("bob", Approve)] == [Vote("bob", Approve)];
    AloneVoter([], Vote("bob", Approve));
  }

  /**
   * Why the table of the last vote matters: Bob's vote does not count while the listed key exists, and would once it
   * is gone.
   */
  lemma KeyTableMatters()
    ensures var keys := Some([APIKey("gone", "carol")]);
            var t := Run(GoneKey(), AskAndApprove(keys));
            && "d" in t && t["d"].status == Pending
            && !Quorate(GoneKey(), keys, t["d"]) && Quorate(GoneKey(), Some([]), t["d"])
  {
    var cfg, key := GoneKey(), APIKey("gone", "carol");
    var rs := AskAndApprove(Some([key]));
    assert Selected([], ["gone"]) == [];
    assert [key][..0] == [];
    assert Selected([key], ["gone"]) == ["carol"];
    assert AllowedHashes(cfg, Some([key])) == ["carol"] && AllowedHashes(cfg, Some([])) == [];
    RunOfTwo(cfg, rs[0], rs[1]);
    assert [] + [Vote("bob", Approve)] == [Vote("bob", Approve)];
    AloneVoter(["carol"], Vote("bob", Approve));
    AloneVoter([], Vote("bob", Approve));
  }
}

/** The hysteresis tracker as a summary of the whole observation history. */
module Tracker {
  import opened Common

  type Key = string

  datatype Config = Config(failureThreshold: int, hysteresis: int, actionCooldown: int)

  /** How long and how often a discrepancy has been observed, and when it was last acted on. */
  datatype DiscState = DiscState(firstSeen: int, count: int, lastActed: Option<int>)

  type Table = map<Key, DiscState>

  /** The state used for the eligibility test: after this observation is counted. */
  function Counted(t: Table, k: Key, now: int): (s: DiscState) {
    if k in t then t[k].(count := t[k].count + 1) else DiscState(now, 1, None)
  }

  predicate Eligible(cfg: Config, s: DiscState, now: int) {
    && s.count >= cfg.failureThreshold && now - s.firstSeen >= cfg.hysteresis
    && !(s.lastActed.Some? && now - s.lastActed.value < cfg.actionCooldown)
  }

  /** One completed pass: its clock, what it observed, and what it acted on. */
  datatype Pass = Pass(now: int, observed: set<Key>, acted: set<Key>)

  /** The tracker after a pass: counters of observed discrepancies advance, healed ones are dropped. */
  function After(t: Table, p: Pass): (r: Table) {
    map k | k in p.observed
      :: if k in p.acted then Counted(t, k, p.now).(lastActed := Some(p.now)) else Counted(t, k, p.now)
  }

  function Of(h: seq<Pass>): (t: Table) {
    if h == [] then map[] else After(Of(h[..|h| - 1]), h[|h| - 1])
  }

  /** The code acts only on observed discrepancies that are eligible at that point. */
  ghost predicate Consistent(cfg: Config, h: seq<Pass>) {
    forall i :: 0 <= i < |h| ==> ActsEligibly(cfg, Of(h[..i]), h[i])
  }

  ghost predicate ActsEligibly(cfg: Config, t: Table, p: Pass) {
    forall k :: k in p.acted ==> k in p.observed && Eligible(cfg, Counted(t, k, p.now), p.now)
  }

  /**
   * A pass that acts eligibly extends a consistent history, and the tracker follows: so every run of passes has one.
   */
  lemma HistoryStep(cfg: Config, h: seq<Pass>, p: Pass)
    requires Consistent(cfg, h) && ActsEligibly(cfg, Of(h), p)
    ensures Consistent(cfg, h + [p]) && Of(h + [p]) == After(Of(h), p)
  {
    var longer := h + [p];
    assert longer[..|h|] == h;
    forall i | 0 <= i < |longer| ensures ActsEligibly(cfg, Of(longer[..i]), longer[i]) {
      if i < |h| { assert longer[..i] == h[..i]; }
    }
  }

  // ---- Inside a pass ----------------------------------------------------------------------

  /** An entry as the loop keeps it, with the mark that it was observed in this pass. */
  datatype Entry = Entry(state: DiscState, seenThis: bool)

  /** One processed discrepancy: its key and whether it was acted on. */
  datatype Mark = Mark(key: Key, acted: bool)

  function States(t: map<Key, Entry>): (r: Table) { map k | k in t :: t[k].state }

  function Stamped(t: Table, k: Key, now: int, acted: bool): (s: DiscState) {
    if acted then Counted(t, k, now).(lastActed := Some(now)) else Counted(t, k, now)
  }

  function PassOf(now: int, ms: seq<Mark>): (p: Pass) {
    Pass(now, set i | 0 <= i < |ms| :: ms[i].key, set i | 0 <= i < |ms| && ms[i].acted :: ms[i].key)
  }

  ghost predicate NewKey(ms: seq<Mark>, k: Key) {
    forall j :: 0 <= j < |ms| ==> ms[j].key != k
  }

  /** Processed keys are distinct, carry their new state and are marked. */
  ghost predicate Marked(t0: map<Key, Entry>, t: map<Key, Entry>, ms: seq<Mark>, now: int) {
    && (forall i, j :: 0 <= i < j < |ms| ==> ms[i].key != ms[j].key)
    && (forall j :: 0 <= j < |ms| ==>
        ms[j].key in t && t[ms[j].key] == Entry(Stamped(States(t0), ms[j].key, now, ms[j].acted), true))
  }

  /** The other keys are as before, unmarked. */
  ghost predicate Unmarked(t0: map<Key, Entry>, t: map<Key, Entry>, ms: seq<Mark>) {
    forall k :: NewKey(ms, k) ==> (k in t <==> k in t0) && (k in t0 ==> t[k] == t0[k].(seenThis := false))
  }

  ghost predicate Earned(cfg: Config, t0: map<Key, Entry>, ms: seq<Mark>, now: int) {
    forall j :: 0 <= j < |ms| && ms[j].acted ==> Eligible(cfg, Counted(States(t0), ms[j].key, now), now)
  }

  /** Where the tracker stands midway through a pass. */
  ghost predicate Midway(cfg: Config, t0: map<Key, Entry>, t: map<Key, Entry>, ms: seq<Mark>, now: int) {
    Marked(t0, t, ms, now) && Unmarked(t0, t, ms) && Earned(cfg, t0, ms, now)
  }

  /** All entries of t, unmarked. */
  function Cleared(t: map<Key, Entry>): (r: map<Key, Entry>) { map k | k in t :: t[k].(seenThis := false) }

  lemma MidwayStart(cfg: Config, t0: map<Key, Entry>, now: int)
    ensures Midway(cfg, t0, Cleared(t0), [], now) && States(Cleared(t0)) == States(t0)
  {
  }

  lemma NewKeyCounted(t0: map<Key, Entry>, t: map<Key, Entry>, ms: seq<Mark>, now: int, k: Key)
    requires Unmarked(t0, t, ms) && NewKey(ms, k)
    ensures Counted(States(t), k, now) == Counted(States(t0), k, now)
  {
  }

  lemma UnmarkedStep(t0: map<Key, Entry>, t: map<Key, Entry>, ms: seq<Mark>, m: Mark, e: Entry)
    requires Unmarked(t0, t, ms)
    ensures Unmarked(t0, t[m.key := e], ms + [m])
  {
    var more := ms + [m];
    forall k | NewKey(more, k) ensures NewKey(ms, k) && k != m.key {
      assert more[|ms|] == m;
      forall j | 0 <= j < |ms| ensures ms[j].key != k { assert more[j] == ms[j]; }
    }
  }

  lemma MarkedStep(t0: map<Key, Entry>, t: map<Key, Entry>, ms: seq<Mark>, now: int, m: Mark)
    requires Marked(t0, t, ms, now) && NewKey(ms, m.key)
    ensures Marked(t0, t[m.key := Entry(Stamped(States(t0), m.key, now, m.acted), true)], ms + [m], now)
  {
  }

  lemma MidwayStep(cfg: Config, t0: map<Key, Entry>, t: map<Key, Entry>, ms: seq<Mark>, now: int, m: Mark)
    requires Midway(cfg, t0, t, ms, now) && NewKey(ms, m.key)
    requires m.acted ==> Eligible(cfg, Counted(States(t), m.key, now), now)
    ensures Midway(cfg, t0, t[m.key := Entry(Stamped(States(t), m.key, now, m.acted), true)], ms + [m], now)
  {
    NewKeyCounted(t0, t, ms, now, m.key);
    MarkedStep(t0, t, ms, now, m);
    UnmarkedStep(t0, t, ms, m, Entry(Stamped(States(t), m.key, now, m.acted), true));
  }

  /** Dropping the unmarked entries leaves exactly the tracker after the pass, and every action was earned. */
  lemma MidwayFinish(cfg: Config, t0: map<Key, Entry>, t: map<Key, Entry>, ms: seq<Mark>, now: int)
    requires Midway(cfg, t0, t, ms, now)
    ensures States(map k | k in t && t[k].seenThis :: t[k]) == After(States(t0), PassOf(now, ms))
    ensures ActsEligibly(cfg, States(t0), PassOf(now, ms))
  {
    var kept, spec := States(map k | k in t && t[k].seenThis :: t[k]), After(States(t0), PassOf(now, ms));
    forall k ensures k in kept <==> k in spec {
      if !NewKey(ms, k) { var j := MarkAt(ms, k); }
    }
    forall k | k in spec ensures kept[k] == spec[k] {
      var j := MarkAt(ms, k);
    }
  }

  lemma MarkAt(ms: seq<Mark>, k: Key) returns (j: nat)
    requires (forall i, j :: 0 <= i < j < |ms| ==> ms[i].key != ms[j].key) && !NewKey(ms, k)
    ensures j < |ms| && ms[j].key == k && (k in PassOf(0, ms).acted <==> ms[j].acted)
  {
    j :| 0 <= j < |ms| && ms[j].key == k;
  }

  // ---- What the history says --------------------------------------------------------------

  /** The number of consecutive passes, ending with the last, that observed k. */
  function Streak(h: seq<Pass>, k: Key): (n: nat)
    ensures n <= |h|
  {
    if h == [] || k !in h[|h| - 1].observed then 0 else 1 + Streak(h[..|h| - 1], k)
  }

  /** When k was last acted on within the current streak. */
  function LastAction(h: seq<Pass>, k: Key): (t: Option<int>) {
    if Streak(h, k) == 0 then None
    else if k in h[|h| - 1].acted then Some(h[|h| - 1].now)
    else LastAction(h[..|h| - 1], k)
  }

  /** The streak is the longest run of last passes that all observed k. */
  lemma {:induction false} StreakMeans(h: seq<Pass>, k: Key)
    ensures var n := Streak(h, k);
            && (forall i :: |h| - n <= i < |h| ==> k in h[i].observed)
            && (n < |h| ==> k !in h[|h| - n - 1].observed)
  {
    if h != [] && k in h[|h| - 1].observed {
      var front := h[..|h| - 1];
      StreakMeans(front, k);
      forall i | |h| - Streak(h, k) <= i < |h| ensures k in h[i].observed {
        if i < |h| - 1 { assert front[i] == h[i]; }
      }
    }
  }

  /** The last action is the time of the latest pass of the streak that acted on k. */
  ghost predicate LatestAction(h: seq<Pass>, k: Key, i: nat) {
    && |h| - Streak(h, k) <= i < |h| && k in h[i].acted
    && forall j :: i < j < |h| ==> k !in h[j].acted
  }

  lemma {:induction false} LastActionMeans(h: seq<Pass>, k: Key)
    ensures LastAction(h, k).None? <==> forall i :: |h| - Streak(h, k) <= i < |h| ==> k !in h[i].acted
    ensures LastAction(h, k).Some? ==> exists i: nat :: LatestAction(h, k, i) && LastAction(h, k).value == h[i].now
  {
    if Streak(h, k) > 0 {
      var n := |h| - 1;
      var front := h[..n];
      LastActionMeans(front, k);
      if k in h[n].acted {
        assert LatestAction(h, k, n);
      } else {
        forall i | 0 <= i < n ensures front[i] == h[i] { }
        if LastAction(front, k).Some? {
          var i: nat :| LatestAction(front, k, i) && LastAction(front, k).value == front[i].now;
          assert front[i] == h[i];
          assert LatestAction(h, k, i);
        } else {
          forall i | |h| - Streak(h, k) <= i < |h| ensures k !in h[i].acted {
            if i < n { assert front[i] == h[i]; }
          }
        }
      }
    }
  }

  /**
   * The tracker holds exactly the discrepancies of the last pass, each with its unbroken streak's length, start and
   * last action.
   */
  lemma {:induction false} TrackerIsStreak(h: seq<Pass>, k: Key)
    ensures k in Of(h) <==> Streak(h, k) > 0
    ensures k in Of(h) ==> Of(h)[k] == DiscState(h[|h| - Streak(h, k)].now, Streak(h, k), LastAction(h, k))
  {
    if h != [] {
      TrackerIsStreak(h[..|h| - 1], k);
    }
  }

  /**
   * The next pass, at this time, is due to act on k if it observes k: that makes the streak long enough, in passes and
   * in time, and the streak's last action, if any, is long enough ago.
   */
  ghost predicate Due(cfg: Config, h: seq<Pass>, k: Key, now: int) {
    var n := Streak(h, k);
    && n + 1 >= cfg.failureThreshold
    && now - (if n == 0 then now else h[|h| - n].now) >= cfg.hysteresis
    && (LastAction(h, k).None? || now - LastAction(h, k).value >= cfg.actionCooldown)
  }

  /** The test on the tracker's entry is exactly that statement about the whole history: neither early nor late. */
  lemma EligibleIsDue(cfg: Config, h: seq<Pass>, k: Key, now: int)
    ensures Eligible(cfg, Counted(Of(h), k, now), now) <==> Due(cfg, h, k, now)
  {
    TrackerIsStreak(h, k);
    if Streak(h, k) == 0 { assert LastAction(h, k).None?; }
  }

  /** Every action has a long enough streak behind it, in passes and in time. */
  lemma ActionIsEarned(cfg: Config, h: seq<Pass>, i: nat, k: Key)
    requires Consistent(cfg, h) && i < |h| && k in h[i].acted
    ensures var n := Streak(h[..i + 1], k);
            n >= 1 && n >= cfg.failureThreshold && h[i].now - h[i + 1 - n].now >= cfg.hysteresis
  {
    assert h[..i + 1][..i] == h[..i];
    TrackerIsStreak(h[..i], k);
    assert ActsEligibly(cfg, Of(h[..i]), h[i]);
    assert Eligible(cfg, Counted(Of(h[..i]), k, h[i].now), h[i].now);
  }

  ghost predicate Monotone(h: seq<Pass>) {
    forall i, j :: 0 <= i <= j < |h| ==> h[i].now <= h[j].now
  }

  ghost predicate ObservedThroughout(h: seq<Pass>, i: nat, j: nat, k: Key) {
    j < |h| && forall m :: i <= m <= j ==> k in h[m].observed
  }

  /** While a streak lasts, the last action recorded is at least as recent as any action in it. */
  lemma {:induction false} LastActionRecent(h: seq<Pass>, i: nat, k: Key)
    requires Monotone(h) && i < |h| && ObservedThroughout(h, i, |h| - 1, k) && k in h[i].acted
    ensures LastAction(h, k).Some? && h[i].now <= LastAction(h, k).value
  {
    var n := |h| - 1;
    assert k in h[n].observed;
    if k !in h[n].acted {
      var front := h[..n];
      forall m | i <= m <= n - 1 ensures k in front[m].observed { assert h[m] == front[m]; }
      LastActionRecent(front, i, k);
    }
  }

  /** Two actions in one streak are at least the cooldown apart. */
  lemma ActionsAreSpaced(cfg: Config, h: seq<Pass>, i: nat, j: nat, k: Key)
    requires Consistent(cfg, h) && Monotone(h) && i < j < |h|
    requires k in h[i].acted && k in h[j].acted && ObservedThroughout(h, i, j, k)
    ensures h[j].now - h[i].now >= cfg.actionCooldown
  {
    var front := h[..j];
    forall m | i <= m <= j - 1 ensures k in front[m].observed { assert h[m] == front[m]; }
    LastActionRecent(front, i, k);
    TrackerIsStreak(front, k);
    assert front[j - 1] == h[j - 1] && k in h[j - 1].observed;
    assert ActsEligibly(cfg, Of(front), h[j]);
    assert Eligible(cfg, Counted(Of(front), k, h[j].now), h[j].now);
  }

  /** Once a discrepancy heals, its next occurrence starts from nothing: no count, no age, no cooldown. */
  lemma HealingResets(h: seq<Pass>, p: Pass, k: Key)
    requires h != [] && k !in h[|h| - 1].observed && k in p.observed && k !in p.acted
    ensures Of(h + [p])[k] == DiscState(p.now, 1, None)
  {
    assert (h + [p])[..|h|] == h;
    TrackerIsStreak(h, k);
  }
}

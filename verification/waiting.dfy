/** `wait_ssh` against every history of probes, every clock and every QEMU exit. */
module Waiting {
  import opened Wrappers
  import opened Text

  const SSH_WAIT_SLEEP_S: real := 2.0

  /** One `_ssh_run(machine, "true")`: an exit status with its output, or the text of the exception. */
  datatype Probe = Finished(returncode: int, stdout: string, stderr: string) | Threw(text: string) {
    /** `(proc.stderr or proc.stdout or "").strip()`. */
    function Said(): string
      requires Finished?
    {
      Strip(if stderr != "" then stderr else stdout)
    }
  }

  /** `ssh_auth_rejected`. */
  predicate AuthRejected(returncode: int, output: string) {
    returncode != 0 &&
    var blob := Lower(output);
    Contains(blob, "permission denied") || Contains(blob, "connection closed") || Contains(blob, "connection reset")
  }

  /** `ssh_not_listening`. */
  predicate NotListening(output: string) {
    var blob := Lower(output);
    Contains(blob, "connection refused") || Contains(blob, "timed out") || Contains(blob, "timeout") ||
    Contains(blob, "banner")
  }

  datatype Kind = Up | Reject | Silent | Other

  function KindOf(p: Probe): Kind {
    match p
    case Threw(text) => if NotListening(text) then Silent else Other
    case Finished(returncode, _, _) =>
      if returncode == 0 then Up
      else if AuthRejected(returncode, p.Said()) then Reject
      else if NotListening(p.Said()) then Silent
      else Other
  }

  /** Turn `k` sees `clock(k + 1)`, whether QEMU has exited, and a probe of some kind. */
  datatype World = World(clock: nat -> real, qemuExited: nat -> bool, kinds: nat -> Kind)

  /** Everything outside, with the probes as they come. */
  datatype Outside = Outside(clock: nat -> real, qemuExited: nat -> bool, probes: nat -> Probe) {
    function Judged(): World {
      World(clock, qemuExited, (k: nat) => KindOf(probes(k)))
    }
  }

  datatype Limits = Limits(timeout: real, attempts: int, rejects: int)

  /** `_default_max_attempts`. */
  function DefaultMaxAttempts(timeout: real): (limit: int)
    ensures limit >= 1
    ensures timeout >= 0.0 ==> (limit as real) * SSH_WAIT_SLEEP_S > timeout >= (limit - 1) as real * SSH_WAIT_SLEEP_S
  {
    var turns := (timeout / SSH_WAIT_SLEEP_S).Floor + 1;
    if turns > 1 then turns else 1
  }

  /** The limits of one call: the attempt limit defaults to one turn per sleep. */
  function LimitsOf(timeout: real, maxAttempts: Option<int>, rejects: int): Limits {
    Limits(timeout, if maxAttempts.Some? then maxAttempts.value else DefaultMaxAttempts(timeout), rejects)
  }

  datatype Outcome = Ready | TooManyRejects | QemuGone | OutOfAttempts | OutOfTime

  // ------------------------------------------------------------------
  // The reject count, without a counter
  // ------------------------------------------------------------------

  /** The probes before turn `n` that were rejected, with no silent probe after them. */
  ghost function StandingRejects(w: World, n: nat): set<nat> {
    set i: nat | i < n && w.kinds(i) == Reject && (forall j: nat :: i < j < n ==> w.kinds(j) != Silent)
  }

  lemma StandingNext(w: World, n: nat)
    ensures StandingRejects(w, 0) == {}
    ensures StandingRejects(w, n + 1)
            == match w.kinds(n)
               case Silent => {}
               case Reject => StandingRejects(w, n) + {n}
               case _ => StandingRejects(w, n)
  {
    var next := StandingRejects(w, n + 1);
    if w.kinds(n) == Silent {
      assert forall i: nat :: i in next ==> i < n && w.kinds(n) != Silent;
    } else {
      assert forall i: nat :: i < n ==> (i in next <==> i in StandingRejects(w, n));
    }
  }

  /** How turn `k` ends, when it is reached; `None` when the loop goes on. */
  ghost function TurnEnd(w: World, limits: Limits, k: nat): Option<Outcome> {
    if w.clock(k + 1) >= w.clock(0) + limits.timeout then Some(OutOfTime)
    else if k >= limits.attempts then Some(OutOfAttempts)
    else if w.qemuExited(k) then Some(QemuGone)
    else if w.kinds(k) == Up then Some(Ready)
    else if w.kinds(k) == Reject && |StandingRejects(w, k + 1)| >= limits.rejects then Some(TooManyRejects)
    else None
  }

  /** The loop ends in turn `k` and in no earlier one. */
  ghost predicate EndsIn(w: World, limits: Limits, k: nat, o: Outcome) {
    TurnEnd(w, limits, k) == Some(o) && forall i: nat :: i < k ==> TurnEnd(w, limits, i) == None
  }

  /** The branches on one probe: an exception, status zero, a reject before anything else, silence, the rest. */
  method Judge(p: Probe) returns (kind: Kind)
    ensures kind == KindOf(p)
  {
    match p {
      case Threw(last) =>
        if NotListening(last) {
          return Silent;
        }
      case Finished(returncode, stdout, stderr) =>
        if returncode == 0 {
          return Up;
        }
        var last := Strip(if stderr != "" then stderr else stdout);
        if AuthRejected(returncode, last) {
          return Reject;
        } else if NotListening(last) {
          return Silent;
        }
    }
    return Other;
  }

  /**
   What each probe does to the rejects that stand. A rejected login counts even
   when its output also says that nothing listens; a probe that only says that
   nothing listens, finished or thrown, clears them; every other one, an exception
   whatever its text included, leaves them as they are.
   */
  lemma ProbeCounts(out: Outside, n: nat)
    ensures var p, w := out.probes(n), out.Judged();
            var before, next := StandingRejects(w, n), StandingRejects(w, n + 1);
            && (p.Finished? && p.returncode != 0 && AuthRejected(p.returncode, p.Said()) ==> next == before + {n})
            && (p.Finished? && p.returncode != 0 && !AuthRejected(p.returncode, p.Said()) ==>
                  next == if NotListening(p.Said()) then {} else before)
            && (p.Finished? && p.returncode == 0 ==> next == before)
            && (p.Threw? ==> next == if NotListening(p.text) then {} else before)
  {
    StandingNext(out.Judged(), n);
  }

  /** What a probe writes on stderr is what counts; stdout counts only when that is empty, and then in the same way. */
  lemma StderrFirst(returncode: int, stdout: string, stdout': string, stderr: string)
    ensures stderr != "" ==> KindOf(Finished(returncode, stdout, stderr)) == KindOf(Finished(returncode, stdout', stderr))
    ensures KindOf(Finished(returncode, stdout, "")) == KindOf(Finished(returncode, "", stdout))
  {
  }

  /** `marker`, in any case, somewhere in the text. */
  ghost predicate Says(text: string, marker: string) {
    exists pre, m, post :: SaysAt(text, marker, pre, m, post)
  }

  ghost predicate SaysAt(text: string, marker: string, pre: string, m: string, post: string) {
    Lower(m) == marker && text == pre + m + post
  }

  lemma SaysContains(text: string, marker: string)
    ensures Says(text, marker) ==> Contains(Lower(text), marker)
  {
    if Says(text, marker) {
      var pre, m, post :| SaysAt(text, marker, pre, m, post);
      assert Lower(text)[|pre|..|pre| + |m|] == Lower(m);
      assert OccursAt(Lower(text), marker, |pre|);
    }
  }

  /** The texts that stand for a rejected login and for silence. */
  const REJECT_MARKERS := ["permission denied", "connection closed", "connection reset"]
  const SILENCE_MARKERS := ["connection refused", "timed out", "timeout", "banner"]

  /** A text with one of these in it, in any case, is classified by it. */
  lemma MarkersClassify(returncode: int, text: string)
    ensures returncode != 0 && (exists i :: 0 <= i < |REJECT_MARKERS| && Says(text, REJECT_MARKERS[i])) ==>
              AuthRejected(returncode, text)
    ensures (exists i :: 0 <= i < |SILENCE_MARKERS| && Says(text, SILENCE_MARKERS[i])) ==> NotListening(text)
    ensures !AuthRejected(0, text)
  {
    forall i | 0 <= i < |REJECT_MARKERS| {
      SaysContains(text, REJECT_MARKERS[i]);
    }
    forall i | 0 <= i < |SILENCE_MARKERS| {
      SaysContains(text, SILENCE_MARKERS[i]);
    }
  }

  lemma TurnEndOf(w: World, limits: Limits, k: nat, kind: Kind, rejects: nat)
    requires kind == w.kinds(k) && rejects == |StandingRejects(w, k + 1)|
    ensures TurnEnd(w, limits, k) ==
            if w.clock(k + 1) >= w.clock(0) + limits.timeout then Some(OutOfTime)
            else if k >= limits.attempts then Some(OutOfAttempts)
            else if w.qemuExited(k) then Some(QemuGone)
            else if kind == Up then Some(Ready)
            else if kind == Reject && rejects >= limits.rejects then Some(TooManyRejects)
            else None
  {
  }

  lemma NoneStanding(w: World)
    ensures |StandingRejects(w, 0)| == 0
  {
    StandingNext(w, 0);
  }

  lemma StandingCount(w: World, n: nat)
    ensures |StandingRejects(w, n + 1)|
            == match w.kinds(n)
               case Silent => 0
               case Reject => |StandingRejects(w, n)| + 1
               case _ => |StandingRejects(w, n)|
  {
    StandingNext(w, n);
  }

  /**
   `wait_ssh`: it ends with the first turn that has an end, so it makes no more
   probes than the attempt limit even if the clock never advances.
   */
  method WaitSsh(out: Outside, timeout: real, maxAttempts: Option<int>, rejectMax: int) returns (o: Outcome, turn: nat)
    ensures EndsIn(out.Judged(), LimitsOf(timeout, maxAttempts, rejectMax), turn, o)
    ensures o == Ready ==> out.probes(turn).Finished? && out.probes(turn).returncode == 0
    ensures turn == 0 || turn <= LimitsOf(timeout, maxAttempts, rejectMax).attempts
  {
    var limits := LimitsOf(timeout, maxAttempts, rejectMax);
    ghost var w := out.Judged();
    var deadline := out.clock(0) + limits.timeout;
    var authRejects := 0;
    var attempts := 0;
    NoneStanding(w);
    while out.clock(attempts + 1) < deadline
      invariant attempts >= 0 && (attempts == 0 || attempts <= limits.attempts)
      invariant authRejects == |StandingRejects(w, attempts)|
      invariant forall i: nat :: i < attempts ==> TurnEnd(w, limits, i) == None
      decreases limits.attempts - attempts
    {
      var k := attempts;
      attempts := attempts + 1;
      if attempts > limits.attempts {
        return OutOfAttempts, k;
      }
      if out.qemuExited(k) {
        return QemuGone, k;
      }
      StandingCount(w, k);
      var kind := Judge(out.probes(k));
      TurnEndOf(w, limits, k, kind, |StandingRejects(w, k + 1)|);
      if kind == Up {
        return Ready, k;
      }
      if kind == Reject {
        authRejects := authRejects + 1;
        if authRejects >= limits.rejects {
          return TooManyRejects, k;
        }
      } else if kind == Silent {
        authRejects := 0;
      }
    }
    return OutOfTime, attempts;
  }

  // ------------------------------------------------------------------
  // What the ends mean
  // ------------------------------------------------------------------

  lemma {:induction false} CountGrowsByOne(w: World, n: nat)
    ensures |StandingRejects(w, n + 1)| <= |StandingRejects(w, n)| + 1
  {
    StandingNext(w, n);
  }

  lemma {:induction false} CountBelow(w: World, limits: Limits, n: nat)
    requires limits.rejects >= 1 && forall i: nat :: i < n ==> TurnEnd(w, limits, i) == None
    ensures |StandingRejects(w, n)| < limits.rejects
  {
    StandingNext(w, 0);
    if n > 0 {
      CountBelow(w, limits, n - 1);
      StandingNext(w, n - 1);
      assert TurnEnd(w, limits, n - 1) == None;
    }
  }

  /**
   Giving up on rejects happens exactly at the turn where the standing count
   reaches the maximum, and success only on a probe with status zero, with no
   turn before it that would have given up.
   */
  lemma EndsMean(w: World, limits: Limits, k: nat, o: Outcome)
    requires EndsIn(w, limits, k, o) && limits.rejects >= 1
    ensures o == TooManyRejects ==>
              w.kinds(k) == Reject && |StandingRejects(w, k + 1)| == limits.rejects &&
              forall i: nat :: i <= k ==> |StandingRejects(w, i)| < limits.rejects
    ensures o == Ready ==>
              w.kinds(k) == Up &&
              forall i: nat :: i <= k ==> |StandingRejects(w, i)| < limits.rejects && (i < k ==> w.kinds(i) != Up)
  {
    forall i: nat | i <= k ensures |StandingRejects(w, i)| < limits.rejects {
      CountBelow(w, limits, i);
    }
    CountGrowsByOne(w, k);
    forall i: nat | i < k ensures w.kinds(i) != Up {
      assert TurnEnd(w, limits, i) == None;
    }
  }

  /** No unclassified probe came after a reject that still stands before turn `n`. */
  ghost predicate NoOtherAfterReject(w: World, n: nat) {
    forall i: nat, j: nat :: i in StandingRejects(w, n) && i < j < n ==> w.kinds(j) != Other
  }

  /** The last `count` probes before turn `n` were all rejects. */
  ghost predicate LastAllReject(w: World, n: nat, count: nat) {
    count <= n && forall i: nat :: n - count <= i < n ==> w.kinds(i) == Reject
  }

  lemma NoOtherEarlier(w: World, n: nat)
    requires NoOtherAfterReject(w, n + 1) && w.kinds(n) == Reject
    ensures NoOtherAfterReject(w, n)
  {
    StandingNext(w, n);
    forall i: nat, j: nat | i in StandingRejects(w, n) && i < j < n ensures w.kinds(j) != Other {
      assert i in StandingRejects(w, n + 1);
    }
  }

  lemma NoneBeforeOther(w: World, n: nat)
    requires NoOtherAfterReject(w, n + 1) && w.kinds(n) == Other
    ensures StandingRejects(w, n + 1) == {}
  {
    var standing := StandingRejects(w, n + 1);
    assert forall i: nat :: i in standing ==> i < n < n + 1;
  }

  lemma OneMoreReject(w: World, n: nat, count: nat)
    requires LastAllReject(w, n, count) && w.kinds(n) == Reject
    ensures LastAllReject(w, n + 1, count + 1)
  {
  }

  lemma {:induction false} StandingAreLast(w: World, n: nat)
    requires forall i: nat :: i < n ==> w.kinds(i) != Up
    requires NoOtherAfterReject(w, n)
    ensures LastAllReject(w, n, |StandingRejects(w, n)|)
  {
    if n == 0 {
      NoneStanding(w);
    } else {
      StandingCount(w, n - 1);
      match w.kinds(n - 1) {
        case Reject =>
          NoOtherEarlier(w, n - 1);
          StandingAreLast(w, n - 1);
          OneMoreReject(w, n - 1, |StandingRejects(w, n - 1)|);
        case Other =>
          NoneBeforeOther(w, n - 1);
        case _ =>
      }
    }
  }

  lemma {:induction false} LastAreStanding(w: World, n: nat)
    requires LastAllReject(w, n, |StandingRejects(w, n)|)
    ensures forall i: nat :: i in StandingRejects(w, n) ==> n - |StandingRejects(w, n)| <= i < n
  {
    if |StandingRejects(w, n)| > 0 {
      StandingCount(w, n - 1);
      LastAreStanding(w, n - 1);
      forall i: nat | i in StandingRejects(w, n) ensures n - |StandingRejects(w, n)| <= i < n {
        assert i < n - 1 ==> i in StandingRejects(w, n - 1);
      }
    }
  }

  /**
   When the maximum is reached it is reached by consecutive rejects, as it is
   documented, if and only if no unclassified probe came after a reject that was
   still counted.
   */
  lemma ConsecutiveIff(w: World, limits: Limits, k: nat)
    requires EndsIn(w, limits, k, TooManyRejects) && limits.rejects >= 1
    ensures LastAllReject(w, k + 1, limits.rejects) <==> NoOtherAfterReject(w, k + 1)
  {
    EndsMean(w, limits, k, TooManyRejects);
    forall i: nat | i < k + 1 ensures w.kinds(i) != Up {
      assert i < k ==> TurnEnd(w, limits, i) == None;
    }
    if NoOtherAfterReject(w, k + 1) {
      StandingAreLast(w, k + 1);
    }
    if LastAllReject(w, k + 1, limits.rejects) {
      LastAreStanding(w, k + 1);
    }
  }

  /**
   The count is not of consecutive rejects: an unclassified failure between two
   rejects neither counts nor resets, so two rejects around it reach a maximum
   of two.
   */
  lemma RejectsNeedNotBeConsecutive(w: World)
    requires w.kinds(0) == Reject && w.kinds(1) == Other && w.kinds(2) == Reject
    requires forall k: nat :: w.clock(k) == 0.0 && !w.qemuExited(k)
    ensures EndsIn(w, Limits(1.0, 3, 2), 2, TooManyRejects)
  {
    var limits := Limits(1.0, 3, 2);
    NoneStanding(w);
    StandingCount(w, 0);
    StandingCount(w, 1);
    StandingCount(w, 2);
    TurnEndOf(w, limits, 0, Reject, 1);
    TurnEndOf(w, limits, 1, Other, 1);
    TurnEndOf(w, limits, 2, Reject, 2);
  }

  lemma RejectExists()
    ensures KindOf(Finished(255, "", "Permission denied")) == Reject
  {
    var said := "Permission denied";
    StripTrims(said);
    assert SaysAt(said, REJECT_MARKERS[0], "", said, "");
    MarkersClassify(255, said);
  }

  lemma SilenceExists()
    ensures KindOf(Threw("Timeout")) == Silent
  {
    var said := "Timeout";
    assert SaysAt(said, SILENCE_MARKERS[2], "", said, "");
    MarkersClassify(255, said);
  }

  lemma OtherExists()
    ensures KindOf(Finished(1, "", "")) == Other
  {
    assert Strip("") == "" && |Lower("")| == 0;
  }

  /** Such a history exists: the three answers below are of the three kinds. */
  lemma KindsExist()
    ensures KindOf(Finished(255, "", "Permission denied")) == Reject
    ensures KindOf(Threw("Timeout")) == Silent
    ensures KindOf(Finished(1, "", "")) == Other
  {
    RejectExists();
    SilenceExists();
    OtherExists();
  }
}

/** QEMU processes from launch to the end of the command that launched them. */
module Lifecycle {
  import opened Wrappers

  const MAX_PORT_RETRIES := 5

  /** `Running` means that nobody has seen it exit and nobody has sent it a kill. */
  datatype Proc = Running | Exited | KillSent

  /** One call of `attempt` inside `_spawn_qemu` or `_spawn_overlay_vm`. */
  datatype Attempt = NoLaunch | Dies(portBusy: bool) | Lives

  datatype HookResult = Yes | No | Raises

  /** What the three transports of the shutdown cascade do. */
  datatype Hooks = Hooks(guestShutdown: HookResult, sshPoweroff: HookResult, acpiButton: HookResult)

  datatype ShutdownPath = Qga | Ssh | Acpi | Kill | Raised

  /** `run_shutdown`: the path that ran, or an exception from a transport. */
  function Cascade(h: Hooks): ShutdownPath {
    if h.guestShutdown == Yes then Qga
    else if h.guestShutdown == Raises then Raised
    else if h.sshPoweroff == Yes then Ssh
    else if h.sshPoweroff == Raises then Raised
    else if h.acpiButton == Yes then Acpi
    else if h.acpiButton == Raises then Raised
    else Kill
  }

  datatype Transport = GuestShutdown | SshPoweroff | AcpiButton

  /** The order in which the cascade tries them. */
  const TRANSPORTS: seq<Transport> := [GuestShutdown, SshPoweroff, AcpiButton]

  function Answer(h: Hooks, t: Transport): HookResult {
    match t
    case GuestShutdown => h.guestShutdown
    case SshPoweroff => h.sshPoweroff
    case AcpiButton => h.acpiButton
  }

  function PathBy(t: Transport): ShutdownPath {
    match t
    case GuestShutdown => Qga
    case SshPoweroff => Ssh
    case AcpiButton => Acpi
  }

  /**
   The first `n` transports were tried: all of them but the last said no, the last
   one decides, and a kill comes only after all three said no.
   */
  ghost predicate Decides(h: Hooks, n: nat, path: ShutdownPath) {
    && 1 <= n <= |TRANSPORTS|
    && (forall i :: 0 <= i < n - 1 ==> Answer(h, TRANSPORTS[i]) == No)
    && match Answer(h, TRANSPORTS[n - 1])
       case Yes => path == PathBy(TRANSPORTS[n - 1])
       case Raises => path == Raised
       case No => path == Kill && n == |TRANSPORTS|
  }

  /** The clean-up in a `finally` block: the cascade, then a bounded wait. */
  datatype Teardown = Teardown(hooks: Hooks, exitsIn15: bool)

  class Host {
    var procs: seq<Proc>
    var tried: seq<Transport>
    var kills: seq<nat>       // the processes that were sent a kill while they were running

    constructor ()
      ensures procs == [] && tried == [] && kills == []
    {
      procs, tried, kills := [], [], [];
    }

    method Try(h: Hooks, t: Transport) returns (r: HookResult)
      modifies this`tried
      ensures tried == old(tried) + [t] && r == Answer(h, t)
    {
      tried := tried + [t];
      r := Answer(h, t);
    }

    /** `Machine.kill`. */
    method KillProc(m: nat)
      requires m < |procs|
      modifies this`procs, this`kills
      ensures kills == if old(procs)[m] == Running then old(kills) + [m] else old(kills)
      ensures procs == old(procs)[m := if old(procs)[m] == Running then KillSent else old(procs)[m]]
    {
      if procs[m] == Running {
        kills := kills + [m];
        procs := procs[m := KillSent];
      }
    }

    /** `Machine.shutdown`: guest agent, SSH, power button, kill, in that order, as far as needed. */
    method Shutdown(m: nat, h: Hooks) returns (path: ShutdownPath)
      requires m < |procs|
      modifies this
      ensures path == Cascade(h)
      ensures |tried| >= |old(tried)| && Decides(h, |tried| - |old(tried)|, path)
      ensures tried == old(tried) + TRANSPORTS[..|tried| - |old(tried)|]
      ensures procs == if path == Kill && old(procs)[m] == Running then old(procs)[m := KillSent] else old(procs)
      ensures kills == if path == Kill && old(procs)[m] == Running then old(kills) + [m] else old(kills)
    {
      var guest := Try(h, GuestShutdown);
      if guest != No {
        assert tried == old(tried) + TRANSPORTS[..1];
        return if guest == Yes then Qga else Raised;
      }
      var ssh := Try(h, SshPoweroff);
      if ssh != No {
        assert tried == old(tried) + TRANSPORTS[..2];
        return if ssh == Yes then Ssh else Raised;
      }
      var acpi := Try(h, AcpiButton);
      assert tried == old(tried) + TRANSPORTS[..3];
      if acpi != No {
        return if acpi == Yes then Acpi else Raised;
      }
      KillProc(m);
      return Kill;
    }

    /** `_proc.wait(timeout)`; false is TimeoutExpired. */
    method Wait(m: nat, exits: bool)
      requires m < |procs|
      modifies this
      ensures procs == if exits then old(procs)[m := Exited] else old(procs)
      ensures kills == old(kills)
    {
      if exits {
        procs := procs[m := Exited];
      }
    }

    /** `_shutdown_machine`: whatever raises, the process has exited or been sent a kill. */
    method ShutdownMachine(m: nat, t: Teardown)
      requires m < |procs|
      modifies this
      ensures |procs| == |old(procs)| && procs[m] != Running
      ensures t.exitsIn15 ==> procs[m] == Exited
      ensures old(procs)[m] == Running ==>
                kills == if Cascade(t.hooks) == Kill || Cascade(t.hooks) == Raised || !t.exitsIn15 then old(kills) + [m]
                         else old(kills)
      ensures forall i :: 0 <= i < |procs| && i != m ==> procs[i] == old(procs)[i]
    {
      var path := Shutdown(m, t.hooks);
      if path == Raised {
        KillProc(m);
      }
      Wait(m, t.exitsIn15);
      if !t.exitsIn15 {
        KillProc(m);
      }
    }

    /**
     `retry_on_addr_in_use(attempt)`: at most five launches, every one that was
     retried had already exited, and at most the last is left running.
     */
    method Spawn(attempts: nat -> Attempt) returns (machine: Option<nat>)
      modifies this
      ensures |old(procs)| <= |procs| <= |old(procs)| + 5 && kills == old(kills)
      ensures |procs| == |old(procs)| + Launched(attempts, 0)
      ensures procs[..|old(procs)|] == old(procs)
      ensures machine.Some? <==> SpawnResult(attempts, 0).Some?
      ensures machine.Some? ==> machine.value == |procs| - 1 == |old(procs)| + SpawnResult(attempts, 0).value &&
                                procs[|procs| - 1] == Running
      ensures forall i :: |old(procs)| <= i < |procs| && machine != Some(i) ==> procs[i] == Exited
    {
      ghost var result, launched := SpawnResult(attempts, 0), Launched(attempts, 0);
      for i := 0 to MAX_PORT_RETRIES
        invariant kills == old(kills) && |procs| == |old(procs)| + i && procs[..|old(procs)|] == old(procs)
        invariant forall j :: |old(procs)| <= j < |procs| ==> procs[j] == Exited
        invariant result == SpawnResult(attempts, i) && launched == i + Launched(attempts, i)
      {
        match attempts(i) {
          case NoLaunch =>
            return None;
          case Dies(portBusy) =>
            procs := procs + [Exited];
            if !portBusy {
              return None;
            }
          case Lives =>
            procs := procs + [Running];
            return Some(|procs| - 1);
        }
      }
      return None;
    }
  }

  /** The first attempt that neither failed nor lost its port, if the retries last that long. */
  function SpawnResult(attempts: nat -> Attempt, i: nat): (r: Option<nat>)
    ensures r.Some? ==> i <= r.value < MAX_PORT_RETRIES && attempts(r.value) == Lives
    decreases MAX_PORT_RETRIES - i
  {
    if i >= MAX_PORT_RETRIES then None
    else
      match attempts(i)
      case NoLaunch => None
      case Dies(portBusy) => if portBusy then SpawnResult(attempts, i + 1) else None
      case Lives => Some(i)
  }

  /** How many processes the attempts from `i` on launch: none after one that lives or fails for good. */
  function Launched(attempts: nat -> Attempt, i: nat): (n: nat)
    ensures i + n <= MAX_PORT_RETRIES || n == 0
    decreases MAX_PORT_RETRIES - i
  {
    if i >= MAX_PORT_RETRIES then 0
    else
      match attempts(i)
      case NoLaunch => 0
      case Dies(portBusy) => if portBusy then 1 + Launched(attempts, i + 1) else 1
      case Lives => 1
  }

  /** A machine comes from the first attempt that lives, when only busy ports were met before it. */
  lemma {:induction false} SpawnResultIff(attempts: nat -> Attempt, i: nat, k: nat)
    requires i <= k < MAX_PORT_RETRIES
    ensures SpawnResult(attempts, i) == Some(k)
            <==> attempts(k) == Lives && forall j :: i <= j < k ==> attempts(j) == Dies(true)
    decreases MAX_PORT_RETRIES - i
  {
    if i < k && attempts(i) == Dies(true) {
      SpawnResultIff(attempts, i + 1, k);
    }
  }

  datatype RunFate = RunFate(
    hostOk: bool,                 // the host checks passed
    prepares: bool,               // overlay and firmware variables could be made
    attempts: nat -> Attempt,
    stepsPass: bool,              // everything between the spawn and the end of the try block
    teardown: Teardown
  )

  /** The process part of `run_run_test`: try, and shut the machine down in `finally` when there is one. */
  method RunOverlay(host: Host, fate: RunFate) returns (ok: bool)
    modifies host
    ensures |old(host.procs)| <= |host.procs| && host.procs[..|old(host.procs)|] == old(host.procs)
    ensures forall i :: |old(host.procs)| <= i < |host.procs| ==> host.procs[i] != Running
    ensures |host.procs| == |old(host.procs)| + if fate.prepares then Launched(fate.attempts, 0) else 0
    ensures ok <==> fate.prepares && SpawnResult(fate.attempts, 0).Some? && fate.stepsPass
  {
    if !fate.prepares {
      return false;
    }
    var machine := host.Spawn(fate.attempts);
    if machine.None? {
      return false;
    }
    ok := fate.stepsPass;
    host.ShutdownMachine(machine.value, fate.teardown);
  }
}

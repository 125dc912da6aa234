/** Port allocation against an arbitrary operating system. */
module Ports {
  import opened Wrappers

  const VNC_BASE_PORT := 5900
  const VNC_FALLBACK_START := 5900
  const VNC_FALLBACK_END := 5999
  const MAX_PORT := 65535

  /** `vnc_tcp_port`. */
  function VncTcpPort(display: int): Option<int> {
    var port := VNC_BASE_PORT + display;
    if port < 1 || port > MAX_PORT then None else Some(port)
  }

  /** What the operating system says to the successive binds: the port it picks for port 0, or whether it grants a fixed one. */
  datatype Os = Os(ephemeral: Option<nat>, grants: nat -> bool)

  ghost predicate ValidOs(os: Os) {
    os.ephemeral.Some? ==> os.ephemeral.value <= MAX_PORT
  }

  /** `0 < port and port + 5900 <= 65535`. */
  predicate FitsDisplay(port: nat) {
    0 < port && port + VNC_BASE_PORT <= MAX_PORT
  }

  /** A display fits exactly when it is not zero and its TCP port exists; which displays those are, in numbers. */
  lemma FittingDisplays(display: nat)
    ensures FitsDisplay(display) <==> display > 0 && VncTcpPort(display).Some?
    ensures VncTcpPort(display) == if display <= 59635 then Some(5900 + display) else None
    ensures VNC_FALLBACK_START <= display <= VNC_FALLBACK_END <==> 5900 <= display <= 5999
  {
  }

  /** The displays of the fallback range are served at TCP ports 11800 to 11899, none of which is probed. */
  lemma FallbackPorts(display: nat)
    requires VNC_FALLBACK_START <= display <= VNC_FALLBACK_END
    ensures VncTcpPort(display).Some? && 11800 <= VncTcpPort(display).value <= 11899
    ensures !(VNC_FALLBACK_START <= VncTcpPort(display).value <= VNC_FALLBACK_END)
  {
  }

  /** A socket's life, as the operating system sees it. */
  datatype Event = Opened(id: nat) | Closed(id: nat)

  /** Every socket is closed right after it was opened, before the next one is. */
  ghost predicate Paired(log: seq<Event>) {
    && |log| % 2 == 0
    && forall k :: 0 <= k < |log| ==> log[k] == if k % 2 == 0 then Opened(k / 2) else Closed(k / 2)
  }

  lemma PairedNext(log: seq<Event>, id: nat)
    requires Paired(log) && |log| == id * 2
    ensures Paired(log + [Opened(id), Closed(id)])
  {
  }

  /** In such a log no socket stays open, none is closed twice, and no two are open at once. */
  lemma PairedClosesOnce(log: seq<Event>, id: nat)
    requires Paired(log)
    ensures Opened(id) in log <==> Closed(id) in log
    ensures forall i, j :: 0 <= i < |log| && 0 <= j < |log| && log[i] == Opened(id) && log[j] == Closed(id) ==> j == i + 1
    ensures forall i, j :: 0 <= i < |log| && 0 <= j < |log| && log[i] == Closed(id) && log[j] == Closed(id) ==> i == j
  {
    if Opened(id) in log {
      var i :| 0 <= i < |log| && log[i] == Opened(id);
      assert log[i + 1] == Closed(id);
    }
    if Closed(id) in log {
      var j :| 0 <= j < |log| && log[j] == Closed(id);
      assert log[j - 1] == Opened(id);
    }
  }

  class Binder {
    const os: Os
    var sockets: nat          // sockets created so far
    var log: seq<Event>

    constructor (os: Os)
      ensures this.os == os && AllClosed()
    {
      this.os := os;
      sockets, log := 0, [];
    }

    ghost predicate AllClosed()
      reads this
    {
      |log| == sockets * 2 && Paired(log)
    }

    method Close(id: nat)
      modifies this`log
      ensures log == old(log) + [Closed(id)]
    {
      log := log + [Closed(id)];
    }

    /** `bind_localhost`: the socket and the port it got; a socket that cannot be bound is closed. */
    method Bind(port: nat) returns (bound: Option<(nat, nat)>)
      modifies this
      ensures bound.Some? ==> bound.value.0 == old(sockets) && log == old(log) + [Opened(old(sockets))]
      ensures bound.None? ==> log == old(log) + [Opened(old(sockets)), Closed(old(sockets))]
      ensures sockets == old(sockets) + 1
      ensures bound.Some? <==> Granted(port).Some?
      ensures bound.Some? ==> Granted(port) == Some(bound.value.1)
    {
      var id := sockets;
      sockets := sockets + 1;
      log := log + [Opened(id)];
      var chosen := Granted(port);
      if chosen.None? {
        Close(id);
        assert log == old(log) + [Opened(old(sockets)), Closed(old(sockets))];
        return None;
      }
      return Some((id, chosen.value));
    }

    /** The port a bind to `port` yields, if it works. */
    function Granted(port: nat): Option<nat> {
      if port == 0 then os.ephemeral else if os.grants(port) then Some(port) else None
    }

    /** `_bind_and_release`: whatever happens, the one socket it makes has been closed. */
    method BindAndRelease(port: nat) returns (chosen: Option<nat>)
      requires AllClosed()
      modifies this
      ensures AllClosed() && sockets == old(sockets) + 1
      ensures chosen == Granted(port)
    {
      PairedNext(log, sockets);
      var bound := Bind(port);
      if bound.None? {
        return None;
      }
      Close(bound.value.0);
      assert log == old(log) + [Opened(old(sockets)), Closed(old(sockets))];
      return Some(bound.value.1);
    }

    /**
     `allocate_vnc_port`: the ephemeral port when it fits, else the first granted
     fallback, and an error exactly when neither exists. Every display it returns
     has a TCP port, which is never the port that was probed. It makes one socket
     for each port it tries, tries none after the one it returns, and leaves every
     socket closed.
     */
    method AllocateVncPort() returns (display: Option<nat>)
      requires ValidOs(os) && AllClosed()
      modifies this
      ensures AllClosed()
      ensures display.None? <==>
                (os.ephemeral.None? || !FitsDisplay(os.ephemeral.value)) &&
                forall p :: VNC_FALLBACK_START <= p <= VNC_FALLBACK_END ==> !os.grants(p)
      ensures display.Some? ==>
                var d := display.value;
                && VncTcpPort(d) == Some(VNC_BASE_PORT + d) && VncTcpPort(d) != Some(d)
                && if os.ephemeral.Some? && FitsDisplay(os.ephemeral.value)
                   then d == os.ephemeral.value && sockets == old(sockets) + 1
                   else VNC_FALLBACK_START <= d <= VNC_FALLBACK_END && os.grants(d) &&
                        (forall p :: VNC_FALLBACK_START <= p < d ==> !os.grants(p)) &&
                        sockets == old(sockets) + 1 + (d - VNC_FALLBACK_START + 1)
    {
      var port := BindAndRelease(0);
      if port.Some? && 0 < port.value && port.value + VNC_BASE_PORT <= MAX_PORT {
        return port;
      }
      for candidate := VNC_FALLBACK_START to VNC_FALLBACK_END + 1
        invariant forall p :: VNC_FALLBACK_START <= p < candidate ==> !os.grants(p)
        invariant AllClosed() && sockets == old(sockets) + 1 + (candidate - VNC_FALLBACK_START)
      {
        display := BindAndRelease(candidate);
        if display.Some? {
          return;
        }
      }
      return None;
    }
  }
}

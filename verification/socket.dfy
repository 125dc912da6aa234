/**
 A connected stream socket. What the peer has left to say is one octet stream;
 how `recv` cuts that stream into pieces is decided afresh at each call.
 */
module Sockets {
  import opened Bytes

  datatype Received = Data(bytes: Octets) | TimedOut

  datatype Exact = Read(bytes: Octets) | OsError

  const NEWLINE: Byte := '\n' as int

  /** The octets before the first newline, or all of them when there is none. */
  function FirstLine(s: Octets): (line: Octets)
    ensures line <= s && NEWLINE !in line
    ensures line == s || s[|line|] == NEWLINE
  {
    if s == [] || s[0] == NEWLINE then [] else [s[0]] + FirstLine(s[1..])
  }

  lemma {:induction false} FirstLineOf(line: Octets, more: Octets)
    requires NEWLINE !in line
    ensures FirstLine(line + [NEWLINE] + more) == line
    ensures FirstLine(line) == line
  {
    if line != [] {
      FirstLineOf(line[1..], more);
      assert (line + [NEWLINE] + more)[1..] == line[1..] + [NEWLINE] + more;
    }
  }

  /** Octets after a newline do not change the first line. */
  lemma {:induction false} FirstLineOfPrefix(s: Octets, more: Octets)
    requires NEWLINE in s
    ensures FirstLine(s + more) == FirstLine(s)
  {
    if s[0] != NEWLINE {
      FirstLineOfPrefix(s[1..], more);
      assert (s + more)[1..] == s[1..] + more;
    }
  }

  class Socket {
    var rest: Octets       // everything the peer will still send before it closes
    const patient: bool    // true when no read runs into the socket timeout

    constructor (stream: Octets, patient: bool)
      ensures rest == stream && this.patient == patient
    {
      this.rest := stream;
      this.patient := patient;
    }

    /** `sock.recv(limit)`: some non-empty prefix of what is left, empty only at end of stream. */
    method Recv(limit: nat) returns (r: Received)
      requires limit > 0
      modifies this
      ensures r.Data? ==> r.bytes + rest == old(rest) && |r.bytes| <= limit
      ensures r.Data? ==> (r.bytes == [] <==> old(rest) == [])
      ensures r.TimedOut? ==> !patient && rest == old(rest)
    {
      var late: bool := *;
      if late && !patient {
        return TimedOut;
      }
      if rest == [] {
        return Data([]);
      }
      var size: nat :| 0 < size <= limit && size <= |rest|;
      r := Data(rest[..size]);
      rest := rest[size..];
    }

    /** `_recv_exact`: exactly the next `n` octets, however the peer fragments them. */
    method RecvExact(n: nat) returns (r: Exact)
      modifies this
      ensures r.Read? ==> |r.bytes| == n && r.bytes + rest == old(rest)
      ensures patient ==> (r.Read? <==> n <= |old(rest)|)
      ensures |rest| <= |old(rest)|
    {
      var buf: Octets := [];
      while |buf| < n
        invariant |buf| <= n
        invariant buf + rest == old(rest)
        decreases n - |buf|
      {
        var chunk := Recv(n - |buf|);
        if chunk.TimedOut? || chunk.bytes == [] {
          return OsError;
        }
        ghost var before := buf + chunk.bytes;
        assert before + rest == buf + (chunk.bytes + rest);
        buf := buf + chunk.bytes;
      }
      return Read(buf);
    }

    /**
     `_recv_json_line` up to `json.loads`: the octets before the first newline
     of the stream, or the whole stream when the peer closes without one. What
     else arrives together with the newline is dropped, so `rest` is known only
     when nothing follows the line.
     */
    method RecvLine() returns (r: Exact)
      modifies this
      ensures r.Read? ==> r.bytes == FirstLine(old(rest)) && old(rest) != []
      ensures patient ==> (r.Read? <==> old(rest) != [])
      ensures r.Read? && |old(rest)| <= |r.bytes| + 1 ==> rest == []
      ensures old(rest) == [] ==> rest == []
    {
      var buf: Octets := [];
      while true
        invariant buf + rest == old(rest) && NEWLINE !in buf
        decreases |rest|
      {
        var chunk := Recv(4096);
        if chunk.TimedOut? {
          return OsError;
        }
        if chunk.bytes == [] {
          break;
        }
        assert buf + chunk.bytes + rest == buf + (chunk.bytes + rest);
        buf := buf + chunk.bytes;
        if NEWLINE in buf {
          FirstLineOfPrefix(buf, rest);
          return Read(FirstLine(buf));
        }
      }
      if buf == [] {
        return OsError;
      }
      assert buf == old(rest);
      FirstLineOf(buf, []);
      return Read(FirstLine(buf));
    }

    /** The peer sends one more line. */
    method Feed(line: Octets)
      modifies this
      ensures rest == old(rest) + line + [NEWLINE]
    {
      rest := rest + line + [NEWLINE];
    }
  }
}

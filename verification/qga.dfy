/**
 The qemu-ga file writer: lock-step requests on one connection, a guest that may
 store part of a chunk and acknowledge anything at all, and a peer that
 fragments its replies as it likes.
 */
module Qga {
  import opened Arithmetic
  import opened Bytes
  import opened Separated
  import opened Sockets
  import opened Wrappers

  const WRITE_CHUNK := 48 * 1024

  /** What `json.loads` and the reads of the reply make of one line. */
  datatype Reply =
    | ErrorReply              // has an "error" key
    | Count(n: int)           // "return" holds an integer count
    | NoCount                 // "return" is missing, empty or holds no integer count
    | Raises(caught: bool)    // decoding or reading it raises; `caught` when the writer's except clause names it

  /** What the guest does with one write: how many octets it stores, and its reply line, if any. */
  datatype Act = Act(stored: nat, line: Option<Octets>)

  datatype Script = Script(
    open: Option<Octets>,             // reply line to guest-file-open
    write: (nat, Octets) -> Act,      // reaction to the n-th write
    closeSends: bool,                 // the close request can be sent
    close: Option<Octets>             // reply line to guest-file-close
  )

  /** The agent answers each request with at most one line. */
  ghost predicate LineByLine(script: Script) {
    && (script.open.Some? ==> NEWLINE !in script.open.value)
    && (script.close.Some? ==> NEWLINE !in script.close.value)
    && forall i, chunk :: script.write(i, chunk).line.Some? ==> NEWLINE !in script.write(i, chunk).line.value
  }

  function ChunkAt(data: Octets, offset: nat): (chunk: Octets)
    requires offset < |data|
    ensures 0 < |chunk| <= |data| - offset && chunk <= data[offset..]
    ensures |chunk| == 49152 || (|chunk| == |data| - offset && |chunk| < 49152)
  {
    data[offset..Min(offset + WRITE_CHUNK, |data|)]
  }

  datatype End = Finished | Refused | Caught | Uncaught

  /** The writes from `offset` on: what the guest stores, how many requests it gets, how the loop ends. */
  datatype Run = Run(stored: Octets, writes: nat, end: End)

  /** How far a reply moves `offset`; a count that is not positive means the whole chunk. */
  function Advance(reply: Reply, chunk: Octets): (step: nat)
    requires |chunk| > 0
    ensures step > 0
  {
    if reply.Count? && reply.n > 0 then reply.n else |chunk|
  }

  function Writes(script: Script, decode: Octets -> Reply, data: Octets, offset: nat, i: nat): (run: Run)
    decreases |data| - offset
  {
    if offset >= |data| then Run([], 0, Finished)
    else
      var chunk := ChunkAt(data, offset);
      var act := script.write(i, chunk);
      var kept := chunk[..Min(act.stored, |chunk|)];
      match act.line
      case None => Run(kept, 1, Caught)
      case Some(line) =>
        match decode(line)
        case ErrorReply => Run(kept, 1, Refused)
        case Raises(caught) => Run(kept, 1, if caught then Caught else Uncaught)
        case reply =>
          var later := Writes(script, decode, data, offset + Advance(reply, chunk), i + 1);
          Run(kept + later.stored, 1 + later.writes, later.end)
  }

  /** What the guest has in all when it holds `stored` after `writes` requests and `later` follows. */
  ghost function After(stored: Octets, writes: nat, later: Run): Run {
    Run(stored + later.stored, writes + later.writes, later.end)
  }

  ghost predicate Continues(reply: Reply) {
    reply.Count? || reply.NoCount?
  }

  /** How the loop ends at a reply, or that it goes on. */
  function Stop(decode: Octets -> Reply, line: Option<Octets>): Option<End> {
    match line
    case None => Some(Caught)
    case Some(reply) =>
      match decode(reply)
      case ErrorReply => Some(Refused)
      case Raises(caught) => Some(if caught then Caught else Uncaught)
      case _ => None
  }

  /** One turn of the write loop, seen from the whole run. */
  lemma OneWrite(script: Script, decode: Octets -> Reply, data: Octets, offset: nat, i: nat, stored: Octets)
    requires offset < |data|
    ensures var chunk := ChunkAt(data, offset);
            var act := script.write(i, chunk);
            var file := stored + chunk[..Min(act.stored, |chunk|)];
            var stop := Stop(decode, act.line);
            After(stored, i, Writes(script, decode, data, offset, i)) ==
            if stop.Some? then Run(file, i + 1, stop.value)
            else After(file, i + 1, Writes(script, decode, data, offset + Advance(decode(act.line.value), chunk), i + 1))
  {
    var chunk := ChunkAt(data, offset);
    var act := script.write(i, chunk);
    var kept := chunk[..Min(act.stored, |chunk|)];
    if act.line.Some? && Continues(decode(act.line.value)) {
      var later := Writes(script, decode, data, offset + Advance(decode(act.line.value), chunk), i + 1);
      Assoc(stored, kept, later.stored);
    }
  }

  datatype Outcome = True | False | Escaped

  /** The result of the call: a failing close overrides whatever the loop was about to return. */
  function ResultOf(end: End, script: Script, decode: Octets -> Reply): Outcome {
    if !script.closeSends then False
    else if script.close.Some? && decode(script.close.value) == Raises(false) then Escaped
    else
      match end
      case Finished => True
      case Uncaught => Escaped
      case _ => False
  }

  datatype Opened = Handle | NoHandle | OpenEscapes

  function OpenedBy(script: Script, decode: Octets -> Reply): Opened {
    match script.open
    case None => NoHandle
    case Some(line) =>
      match decode(line)
      case ErrorReply => NoHandle
      case Raises(caught) => if caught then NoHandle else OpenEscapes
      case _ => Handle
  }

  class Agent {
    const sock: Socket
    const script: Script
    var file: Octets
    var writes: nat
    var closes: nat

    constructor (sock: Socket, script: Script)
      ensures this.sock == sock && this.script == script
      ensures file == [] && writes == 0 && closes == 0
    {
      this.sock := sock;
      this.script := script;
      file, writes, closes := [], 0, 0;
    }

    /** One reply line off the connection; nothing is left over in lock step. */
    method Answer(line: Option<Octets>) returns (r: Option<Octets>)
      requires sock.rest == [] && (line.Some? ==> NEWLINE !in line.value)
      modifies sock
      ensures sock.patient ==> r == line && sock.rest == []
      ensures r.Some? ==> r == line && sock.rest == []
    {
      if line.Some? {
        sock.Feed(line.value);
        FirstLineOf(line.value, []);
        assert sock.rest == line.value + [NEWLINE] + [];
      }
      var got := sock.RecvLine();
      if got.OsError? {
        return None;
      }
      return Some(got.bytes);
    }

    /** guest-file-open with mode "w+": the file starts empty. */
    method Open() returns (r: Option<Octets>)
      requires sock.rest == [] && LineByLine(script)
      modifies this`file, sock
      ensures file == []
      ensures sock.patient ==> r == script.open && sock.rest == []
      ensures r.Some? ==> r == script.open && sock.rest == []
    {
      file := [];
      r := Answer(script.open);
    }

    method Write(chunk: Octets) returns (r: Option<Octets>)
      requires sock.rest == [] && LineByLine(script)
      modifies this`file, this`writes, sock
      ensures var act := script.write(old(writes), chunk);
              && file == old(file) + chunk[..Min(act.stored, |chunk|)] && writes == old(writes) + 1
              && (sock.patient ==> r == act.line && sock.rest == [])
              && (r.Some? ==> r == act.line && sock.rest == [])
    {
      var act := script.write(writes, chunk);
      file := file + chunk[..Min(act.stored, |chunk|)];
      writes := writes + 1;
      r := Answer(act.line);
    }

    /** Send guest-file-close and read what comes back, whatever is still on the line. */
    method Close(decode: Octets -> Reply) returns (sent: bool, escapes: bool)
      requires LineByLine(script)
      modifies this`closes, sock
      ensures closes == old(closes) + 1 && sent == script.closeSends
      ensures old(sock.rest) == [] && sock.patient ==>
                escapes == (sent && script.close.Some? && decode(script.close.value) == Raises(false))
    {
      closes := closes + 1;
      sent, escapes := script.closeSends, false;
      if sent {
        if script.close.Some? {
          if sock.rest == [] {
            FirstLineOf(script.close.value, []);
            assert [] + script.close.value + [NEWLINE] == script.close.value + [NEWLINE] + [];
          }
          sock.Feed(script.close.value);
        }
        var got := sock.RecvLine();
        escapes := got.Read? && decode(got.bytes) == Raises(false);
      }
    }

    /**
     `qga_guest_file_write` from the first request on. Without timeouts the file,
     the requests and the result are those of `Writes`. With timeouts, of the reply
     to the close included, success still means that the loop finished and that
     the file is what `Writes` stores: the data, for an honest guest.
     */
    method FileWrite(decode: Octets -> Reply, data: Octets) returns (r: Outcome)
      requires sock.rest == [] && writes == 0 && LineByLine(script)
      modifies this, sock
      ensures writes <= |data|
      ensures sock.patient ==>
                match OpenedBy(script, decode)
                case NoHandle => r == False && writes == 0 && closes == old(closes)
                case OpenEscapes => r == Escaped && writes == 0 && closes == old(closes)
                case Handle =>
                  var run := Writes(script, decode, data, 0, 0);
                  file == run.stored && writes == run.writes && closes == old(closes) + 1 &&
                  r == ResultOf(run.end, script, decode)
      ensures sock.patient && script.open.None? ==> r == False && writes == 0 && closes == old(closes)
      ensures sock.patient && script.open.Some? && decode(script.open.value) == ErrorReply ==>
                r == False && writes == 0 && closes == old(closes)
      ensures sock.patient && script.open.Some? && decode(script.open.value).Raises? ==>
                writes == 0 && closes == old(closes) &&
                (r == Escaped <==> !decode(script.open.value).caught) && r != True
      ensures sock.patient && script.open.Some? && Continues(decode(script.open.value)) ==> closes == old(closes) + 1
      ensures sock.patient && closes > old(closes) ==>
                if !script.closeSends then r == False
                else if script.close.Some? && decode(script.close.value) == Raises(false) then r == Escaped
                else (r == True <==> Writes(script, decode, data, 0, 0).end == Finished) &&
                     (r == Escaped <==> Writes(script, decode, data, 0, 0).end == Uncaught)
      ensures r == True ==> Run(file, writes, Finished) == Writes(script, decode, data, 0, 0)
      ensures r == True && Honest(script, decode) ==> file == data
      ensures r == True && OneSided(Ledger(script, decode, data, 0, 0)) ==>
                (file == data <==> InStep(Ledger(script, decode, data, 0, 0)))
      ensures closes == old(closes) || (closes == old(closes) + 1 && OpenedBy(script, decode) == Handle)
      ensures r == True || writes > 0 ==> closes == old(closes) + 1
    {
      var answer := Open();
      if answer.None? {
        return False;
      }
      match decode(answer.value) {
        case ErrorReply => return False;
        case Raises(caught) => return if caught then False else Escaped;
        case _ =>
      }
      var end := WriteLoop(decode, data);
      var sent, escapes := Close(decode);
      if !sent {
        return False;
      }
      if escapes {
        return Escaped;
      }
      match end {
        case Finished =>
          SuccessMeans(script, decode, data);
          return True;
        case Uncaught => return Escaped;
        case _ => return False;
      }
    }

    /** One turn of the write loop: the request, its reply, and where the next chunk starts. */
    method Turn(decode: Octets -> Reply, data: Octets, offset: nat) returns (end: Option<End>, next: nat)
      requires sock.rest == [] && offset < |data| && LineByLine(script)
      modifies this`file, this`writes, sock
      ensures var chunk := ChunkAt(data, offset);
              var act := script.write(old(writes), chunk);
              && file == old(file) + chunk[..Min(act.stored, |chunk|)] && writes == old(writes) + 1
              && (sock.patient || end.None? ==> end == Stop(decode, act.line))
              && (end.None? ==> sock.rest == [] && next == offset + Advance(decode(act.line.value), chunk))
      ensures end != Some(Finished)
      ensures sock.patient ==> sock.rest == []
    {
      next := offset;
      var chunk := ChunkAt(data, offset);
      var got := Write(chunk);
      if got.None? {
        return Some(Caught), next;
      }
      match decode(got.value) {
        case ErrorReply => end := Some(Refused);
        case Raises(caught) => end := Some(if caught then Caught else Uncaught);
        case reply =>
          end := None;
          next := offset + Advance(reply, chunk);
      }
    }

    /** The `while offset < len(data)` loop inside the try block. */
    method WriteLoop(decode: Octets -> Reply, data: Octets) returns (end: End)
      requires sock.rest == [] && writes == 0 && file == [] && LineByLine(script)
      modifies this`file, this`writes, sock
      ensures writes <= |data|
      ensures sock.patient || end == Finished ==> Run(file, writes, end) == Writes(script, decode, data, 0, 0)
      ensures sock.patient ==> sock.rest == []
    {
      var offset: nat := 0;
      ghost var run := Writes(script, decode, data, 0, 0);
      assert [] + run.stored == run.stored;
      while offset < |data|
        invariant sock.rest == []
        invariant writes <= offset && writes <= |data|
        invariant run == After(file, writes, Writes(script, decode, data, offset, writes))
        decreases |data| - offset
      {
        OneWrite(script, decode, data, offset, writes, file);
        var stop, next := Turn(decode, data, offset);
        if stop.Some? {
          return stop.value;
        }
        offset := next;
      }
      assert file + [] == file;
      return Finished;
    }
  }

  // ------------------------------------------------------------------
  // What the run means
  // ------------------------------------------------------------------

  /** `offset` strictly increases, so there are at most as many requests as octets, for arbitrary replies. */
  lemma {:induction false} WritesBounded(script: Script, decode: Octets -> Reply, data: Octets, offset: nat, i: nat)
    requires offset <= |data|
    ensures Writes(script, decode, data, offset, i).writes <= |data| - offset
    decreases |data| - offset
  {
    if offset < |data| {
      var chunk := ChunkAt(data, offset);
      var act := script.write(i, chunk);
      if act.line.Some? && Continues(decode(act.line.value)) {
        var next := offset + Advance(decode(act.line.value), chunk);
        if next <= |data| {
          WritesBounded(script, decode, data, next, i + 1);
        }
      }
    }
  }

  ghost function Stored(script: Script, i: nat, chunk: Octets): nat {
    Min(script.write(i, chunk).stored, |chunk|)
  }

  /** One answered write: what the guest stored, and what its reply makes the writer take as stored. */
  datatype Entry = Entry(stored: nat, due: nat)

  /** The answered writes of a run. */
  ghost function Ledger(script: Script, decode: Octets -> Reply, data: Octets, offset: nat, i: nat): seq<Entry>
    decreases |data| - offset
  {
    if offset >= |data| then []
    else
      var chunk := ChunkAt(data, offset);
      var line := script.write(i, chunk).line;
      if line.None? || !Continues(decode(line.value)) then []
      else
        var step := Advance(decode(line.value), chunk);
        [Entry(Stored(script, i, chunk), Min(step, |data| - offset))] + Ledger(script, decode, data, offset + step, i + 1)
  }

  ghost predicate InStep(ledger: seq<Entry>) {
    forall k :: 0 <= k < |ledger| ==> ledger[k].stored == ledger[k].due
  }

  /** The guest never stores more than it acknowledges. */
  ghost predicate NeverAhead(ledger: seq<Entry>) {
    forall k :: 0 <= k < |ledger| ==> ledger[k].stored <= ledger[k].due
  }

  /** The guest never stores less than it acknowledges. */
  ghost predicate NeverBehind(ledger: seq<Entry>) {
    forall k :: 0 <= k < |ledger| ==> ledger[k].stored >= ledger[k].due
  }

  ghost predicate OneSided(ledger: seq<Entry>) {
    NeverAhead(ledger) || NeverBehind(ledger)
  }

  ghost function AllStored(ledger: seq<Entry>): nat {
    if ledger == [] then 0 else ledger[0].stored + AllStored(ledger[1..])
  }

  ghost function AllDue(ledger: seq<Entry>): nat {
    if ledger == [] then 0 else ledger[0].due + AllDue(ledger[1..])
  }

  lemma {:induction false} AheadBalance(ledger: seq<Entry>)
    requires NeverAhead(ledger)
    ensures AllStored(ledger) <= AllDue(ledger)
    ensures AllStored(ledger) == AllDue(ledger) <==> InStep(ledger)
  {
    if ledger != [] {
      AheadBalance(ledger[1..]);
      InStepFirst(ledger);
    }
  }

  lemma {:induction false} BehindBalance(ledger: seq<Entry>)
    requires NeverBehind(ledger)
    ensures AllStored(ledger) >= AllDue(ledger)
    ensures AllStored(ledger) == AllDue(ledger) <==> InStep(ledger)
  {
    if ledger != [] {
      BehindBalance(ledger[1..]);
      InStepFirst(ledger);
    }
  }

  lemma InStepFirst(ledger: seq<Entry>)
    requires ledger != []
    ensures InStep(ledger) <==> ledger[0].stored == ledger[0].due && InStep(ledger[1..])
  {
    if ledger[0].stored == ledger[0].due && InStep(ledger[1..]) {
      forall k | 0 <= k < |ledger| ensures ledger[k].stored == ledger[k].due {
        if k > 0 {
          assert ledger[k] == ledger[1..][k - 1];
        }
      }
    }
  }

  /** What the rest of a finished run owes. */
  ghost function Left(data: Octets, offset: nat): nat {
    if offset <= |data| then |data| - offset else 0
  }

  /** One turn of a finished run: the write was answered, and the run goes on from where the answer says. */
  lemma FinishedTurn(script: Script, decode: Octets -> Reply, data: Octets, offset: nat, i: nat)
    returns (chunk: Octets, e: Entry, next: nat)
    requires offset < |data| && Writes(script, decode, data, offset, i).end == Finished
    ensures chunk <= data[offset..] && e.stored <= |chunk| && next > offset
    ensures e.due == Min(next - offset, |data| - offset)
    ensures Ledger(script, decode, data, offset, i) == [e] + Ledger(script, decode, data, next, i + 1)
    ensures Writes(script, decode, data, next, i + 1).end == Finished
    ensures Writes(script, decode, data, offset, i).stored
            == chunk[..e.stored] + Writes(script, decode, data, next, i + 1).stored
  {
    chunk := ChunkAt(data, offset);
    var step := Advance(decode(script.write(i, chunk).line.value), chunk);
    e := Entry(Stored(script, i, chunk), Min(step, |data| - offset));
    next := offset + step;
  }

  lemma LedgerFirst(e: Entry, rest: seq<Entry>)
    ensures AllStored([e] + rest) == e.stored + AllStored(rest) && AllDue([e] + rest) == e.due + AllDue(rest)
    ensures InStep([e] + rest) <==> e.stored == e.due && InStep(rest)
  {
    assert ([e] + rest)[1..] == rest;
    InStepFirst([e] + rest);
  }

  lemma {:induction false} LedgerAdds(script: Script, decode: Octets -> Reply, data: Octets, offset: nat, i: nat)
    requires Writes(script, decode, data, offset, i).end == Finished
    ensures |Writes(script, decode, data, offset, i).stored| == AllStored(Ledger(script, decode, data, offset, i))
    ensures Left(data, offset) == AllDue(Ledger(script, decode, data, offset, i))
    decreases |data| - offset
  {
    if offset < |data| {
      var chunk, e, next := FinishedTurn(script, decode, data, offset, i);
      LedgerAdds(script, decode, data, next, i + 1);
      LedgerFirst(e, Ledger(script, decode, data, next, i + 1));
    }
  }

  /** The data from `offset` on. */
  ghost function From(data: Octets, offset: nat): Octets {
    if offset <= |data| then data[offset..] else []
  }

  /** Taking what is due of a chunk leaves the data from `offset + step` on. */
  lemma TakeChunk(data: Octets, offset: nat, chunk: Octets, stored: nat, step: nat)
    requires offset < |data| && chunk <= data[offset..] && stored == Min(step, |data| - offset) <= |chunk|
    ensures chunk[..stored] + From(data, offset + step) == From(data, offset)
  {
    assert data[offset..][..|chunk|] == chunk;
    assert data[offset..] == data[offset..][..stored] + data[offset..][stored..];
  }

  /** One turn in step takes exactly what is due. */
  lemma InStepTurn(script: Script, decode: Octets -> Reply, data: Octets, offset: nat, i: nat)
    returns (taken: Octets, next: nat)
    requires offset < |data| && Writes(script, decode, data, offset, i).end == Finished
    requires InStep(Ledger(script, decode, data, offset, i))
    ensures next > offset && taken + From(data, next) == From(data, offset)
    ensures Writes(script, decode, data, next, i + 1).end == Finished
    ensures InStep(Ledger(script, decode, data, next, i + 1))
    ensures Writes(script, decode, data, offset, i).stored == taken + Writes(script, decode, data, next, i + 1).stored
  {
    var chunk, e;
    chunk, e, next := FinishedTurn(script, decode, data, offset, i);
    LedgerFirst(e, Ledger(script, decode, data, next, i + 1));
    TakeChunk(data, offset, chunk, e.stored, next - offset);
    taken := chunk[..e.stored];
  }

  lemma {:induction false} InStepStoresAll(script: Script, decode: Octets -> Reply, data: Octets, offset: nat, i: nat)
    requires Writes(script, decode, data, offset, i).end == Finished
    requires InStep(Ledger(script, decode, data, offset, i))
    ensures Writes(script, decode, data, offset, i).stored == From(data, offset)
    decreases |data| - offset
  {
    if offset < |data| {
      var taken, next := InStepTurn(script, decode, data, offset, i);
      InStepStoresAll(script, decode, data, next, i + 1);
    }
  }

  /**
   What a finished write has stored. A guest that never stores more than it
   acknowledges stores at most as many octets as there are, one that never stores
   less at least as many, and in both cases the data itself exactly when every
   acknowledgement tells what was stored.
   */
  lemma SuccessIsCompleteIff(script: Script, decode: Octets -> Reply, data: Octets)
    requires Writes(script, decode, data, 0, 0).end == Finished && OneSided(Ledger(script, decode, data, 0, 0))
    ensures var stored := Writes(script, decode, data, 0, 0).stored;
            var ledger := Ledger(script, decode, data, 0, 0);
            && (NeverAhead(ledger) ==> |stored| <= |data|)
            && (NeverBehind(ledger) ==> |stored| >= |data|)
            && (stored == data <==> InStep(ledger))
            && (|stored| == |data| <==> InStep(ledger))
  {
    var ledger := Ledger(script, decode, data, 0, 0);
    LedgerAdds(script, decode, data, 0, 0);
    if NeverAhead(ledger) {
      AheadBalance(ledger);
    } else {
      BehindBalance(ledger);
    }
    if NeverBehind(ledger) {
      BehindBalance(ledger);
    }
    if InStep(ledger) {
      InStepStoresAll(script, decode, data, 0, 0);
      assert From(data, 0) == data;
    }
  }

  /** A guest that reports the positive length it stored, or stores all of a chunk and reports none. */
  ghost predicate Honest(script: Script, decode: Octets -> Reply) {
    forall i, chunk :: |chunk| > 0 ==>
      var act := script.write(i, chunk);
      act.line.Some? &&
      match decode(act.line.value)
      case Count(n) => if n > 0 then act.stored == n <= |chunk| else act.stored >= |chunk|
      case NoCount => act.stored >= |chunk|
      case _ => true
  }

  lemma {:induction false} HonestInStep(script: Script, decode: Octets -> Reply, data: Octets, offset: nat, i: nat)
    requires Honest(script, decode)
    ensures InStep(Ledger(script, decode, data, offset, i))
    decreases |data| - offset
  {
    if Ledger(script, decode, data, offset, i) != [] {
      var chunk := ChunkAt(data, offset);
      var act := script.write(i, chunk);
      assert act.line.Some? && Continues(decode(act.line.value));
      HonestInStep(script, decode, data, offset + Advance(decode(act.line.value), chunk), i + 1);
      InStepFirst(Ledger(script, decode, data, offset, i));
    }
  }

  /** A finished write to an honest guest has stored the data. */
  lemma HonestSuccessIsComplete(script: Script, decode: Octets -> Reply, data: Octets)
    requires Honest(script, decode) && Writes(script, decode, data, 0, 0).end == Finished
    ensures Writes(script, decode, data, 0, 0).stored == data
  {
    HonestInStep(script, decode, data, 0, 0);
    InStepStoresAll(script, decode, data, 0, 0);
    assert From(data, 0) == data;
  }

  lemma SuccessMeans(script: Script, decode: Octets -> Reply, data: Octets)
    requires Writes(script, decode, data, 0, 0).end == Finished
    ensures Honest(script, decode) ==> Writes(script, decode, data, 0, 0).stored == data
    ensures OneSided(Ledger(script, decode, data, 0, 0)) ==>
              (Writes(script, decode, data, 0, 0).stored == data <==> InStep(Ledger(script, decode, data, 0, 0)))
  {
    if Honest(script, decode) {
      HonestSuccessIsComplete(script, decode, data);
    }
    if OneSided(Ledger(script, decode, data, 0, 0)) {
      SuccessIsCompleteIff(script, decode, data);
    }
  }

  /** A zero count is read as "whole chunk written": a guest that stores nothing and says so is reported as success. */
  lemma ZeroCountLosesData(line: Octets, decode: Octets -> Reply)
    requires decode(line) == Count(0)
    ensures var script := Script(Some(line), (i, chunk) => Act(0, Some(line)), true, None);
            var run := Writes(script, decode, [1], 0, 0);
            run.stored == [] && ResultOf(run.end, script, decode) == True &&
            NeverAhead(Ledger(script, decode, [1], 0, 0)) && !InStep(Ledger(script, decode, [1], 0, 0))
  {
    var script := Script(Some(line), (i, chunk) => Act(0, Some(line)), true, None);
    var data: Octets := [1];
    assert ChunkAt(data, 0) == [1];
    assert script.write(0, [1]) == Act(0, Some(line));
    assert Writes(script, decode, data, 1, 1) == Run([], 0, Finished);
    assert Ledger(script, decode, data, 1, 1) == [];
    assert Ledger(script, decode, data, 0, 0)[0] == Entry(0, 1);
  }

  /** A guest that first runs ahead and then falls behind by as much can end up with the data out of step. */
  lemma ErrorsCancel(line: Octets, decode: Octets -> Reply)
    requires decode(line) == Count(1)
    ensures var script := Script(Some(line), (i, chunk) => Act(if i == 0 then 2 else 0, Some(line)), true, None);
            var ledger := Ledger(script, decode, [1, 2], 0, 0);
            Writes(script, decode, [1, 2], 0, 0) == Run([1, 2], 2, Finished) && !OneSided(ledger) && !InStep(ledger)
  {
    var script := Script(Some(line), (i, chunk) => Act(if i == 0 then 2 else 0, Some(line)), true, None);
    var data: Octets := [1, 2];
    assert ChunkAt(data, 0) == [1, 2] && ChunkAt(data, 1) == [2];
    assert Writes(script, decode, data, 2, 2) == Run([], 0, Finished) && Ledger(script, decode, data, 2, 2) == [];
    assert Writes(script, decode, data, 1, 1) == Run([], 1, Finished);
    assert Ledger(script, decode, data, 1, 1) == [Entry(0, 1)];
    var ledger := Ledger(script, decode, data, 0, 0);
    assert ledger[0] == Entry(2, 1) && ledger[1] == Entry(0, 1);
  }
}

/**
 The `--update-from` driver: previous release, update, window and About checks,
 against a guest that answers, fails or hangs at any command.
 */
module Updating {
  import opened Wrappers
  import opened Separated
  import opened Text
  import opened Versions

  /** The commands of the driver, by what they do in the guest. */
  datatype Cmd =
    | Upload | SessionSmoke | Previous | TestBinary | VersionProbe | ToolProbe | Launch | WindowProbe
    | AboutSmoke | Grab | Fetch | Quit | Latest | EntryProbe

  datatype Event = Ran(cmd: Cmd) | KeysSent | VncGrabbed

  datatype Answer = Reply(returncode: int, out: string) | Hangs | Broken

  /** SessionSmokeError, TimeoutError, subprocess.TimeoutExpired, and any other OSError. */
  datatype Exn = Smoke | TimeUp | Expired | Os

  /** The step names of UPDATE_FROM_STEPS: "session", "install-previous", and so on. */
  datatype StepName =
    | SessionStep | InstallPrevious | VersionPrevious | AboutVersionBefore | Update | VersionStep | DesktopEntry
    | Window | AboutVersionAfter

  datatype Step = Step(name: StepName, passed: bool, intended: Option<string>, observed: Option<string>)

  const UPDATE_FROM_STEPS: seq<StepName> :=
    [SessionStep, InstallPrevious, VersionPrevious, AboutVersionBefore, Update, VersionStep, DesktopEntry, Window,
     AboutVersionAfter]

  /** The commands whose order matters. */
  const MILESTONES: seq<Cmd> := [Previous, Launch, Quit, Latest, Launch]

  predicate IsMilestone(c: Cmd) {
    c == Previous || c == Launch || c == Quit || c == Latest
  }

  /** The recorded steps are the first ones of the plan, in order. */
  ghost predicate Planned(steps: seq<Step>) {
    |steps| <= |UPDATE_FROM_STEPS| && forall i :: 0 <= i < |steps| ==> steps[i].name == UPDATE_FROM_STEPS[i]
  }

  /** The commands whose good answers the plan rests on, in the order it asks for them. */
  const CHECKPOINTS: seq<Cmd> :=
    [SessionSmoke, Previous, TestBinary, Launch, WindowProbe, Latest, TestBinary, EntryProbe, Launch, WindowProbe]

  /** One step was appended. */
  ghost predicate Adds(before: seq<Step>, after: seq<Step>) {
    |after| == |before| + 1 && after[..|before|] == before
  }

  lemma PlannedNext(before: seq<Step>, after: seq<Step>)
    requires Planned(before) && Adds(before, after) && |before| < |UPDATE_FROM_STEPS|
    requires after[|before|].name == UPDATE_FROM_STEPS[|before|]
    ensures Planned(after) && before <= after
  {
  }

  /** One more of a plan. */
  lemma PlanNext(plan: seq<Cmd>, n: nat)
    requires n < |plan|
    ensures plan[..n] + [plan[n]] == plan[..n + 1] && plan[..n] <= plan && plan[..n + 1] <= plan
  {
  }

  // ------------------------------------------------------------------
  // Reading replies
  // ------------------------------------------------------------------

  function FirstNonBlank(lines: seq<string>): string {
    if lines == [] then "" else if Strip(lines[0]) != "" then Strip(lines[0]) else FirstNonBlank(lines[1..])
  }

  /** `re.sub(r"^strata\s+", "", line)`, ignoring case. */
  function DropStrata(line: string): string {
    if |line| > 6 && Lower(line[..6]) == "strata" && IsSpace(line[6]) then DropLeading(line[6..]) else line
  }

  /** A character at which `str.splitlines` breaks; no answer can tell "\r\n" from two breaks here. */
  predicate IsLineBreak(c: char) {
    '\n' <= c <= '\r' || 0x1C as char <= c <= 0x1E as char
  }

  lemma LineBreaksAre(c: char)
    ensures IsLineBreak(c) <==> c in "\n\U{b}\U{c}\r\U{1c}\U{1d}\U{1e}"
  {
    var breaks := "\n\U{b}\U{c}\r\U{1c}\U{1d}\U{1e}";
    if '\n' <= c <= '\r' {
      assert breaks[c as int - 10] == c;
    } else if IsLineBreak(c) {
      assert breaks[c as int - 24] == c;
    }
  }

  /** The text with every line break made a newline. */
  function NewlinesOnly(out: string): (r: string)
    ensures |r| == |out|
  {
    seq(|out|, i requires 0 <= i < |out| => if IsLineBreak(out[i]) then '\n' else out[i])
  }

  /** The first line that is not blank, without the program's name. */
  function VersionText(out: string): string {
    DropStrata(FirstNonBlank(Split(NewlinesOnly(out), '\n')))
  }

  /** `strata_version_is_cli`: that line looks like a version. */
  predicate IsCli(out: string) {
    var rest := VersionText(out);
    LooksLikeVersion(if |rest| > 0 && (rest[0] == 'v' || rest[0] == 'V') then rest[1..] else rest)
  }

  /** `parse_observed_version` on output that is not blank. */
  function Observed(out: string): string {
    StripVPrefix(VersionText(out))
  }

  lemma {:induction false} FirstNonBlankIs(blanks: seq<string>, line: string, rest: seq<string>)
    requires (forall i :: 0 <= i < |blanks| ==> Strip(blanks[i]) == "") && Strip(line) != ""
    ensures FirstNonBlank(blanks + [line] + rest) == Strip(line)
  {
    var lines := blanks + [line] + rest;
    if blanks != [] {
      FirstNonBlankIs(blanks[1..], line, rest);
      assert lines[1..] == blanks[1..] + [line] + rest;
    }
  }

  lemma {:induction false} GapDropped(gap: string, v: string)
    requires (forall i :: 0 <= i < |gap| ==> IsSpace(gap[i])) && v != "" && !IsSpace(v[0])
    ensures DropLeading(gap + v) == v
  {
    if gap == "" {
      assert gap + v == v;
    } else {
      GapDropped(gap[1..], v);
      assert (gap + v)[1..] == gap[1..] + v;
    }
  }

  /** The program's name, in any case, and the space after it. */
  ghost predicate IsName(name: string, gap: string) {
    Lower(name) == "strata" && gap != "" && forall i :: 0 <= i < |gap| ==> IsSpace(gap[i])
  }

  lemma NameDropped(name: string, gap: string, v: string)
    requires IsName(name, gap) && v != "" && !IsSpace(v[0])
    ensures DropStrata(name + gap + v) == v
  {
    var line := name + gap + v;
    assert |name| == 6 && line[..6] == name && line[6..] == gap + v && line[6] == gap[0];
    GapDropped(gap, v);
  }

  /** `text` is the version `v`, perhaps with a v in front. */
  ghost predicate Spells(text: string, v: string) {
    Canonical(v) && (text == v || text == "v" + v || text == "V" + v)
  }

  lemma SpelledVersion(text: string, v: string)
    requires Spells(text, v)
    ensures text != "" && !IsSpace(text[0]) && DropStrata(text) == text && StripVPrefix(text) == v
    ensures LooksLikeVersion(if text[0] == 'v' || text[0] == 'V' then text[1..] else text)
  {
    StripTrims(v);
    NormalizeTrims(v);
    assert IsDigit(v[0]) && Trimmed(text);
    StripTrims(text);
    assert |text| > 6 ==> Lower(text[..6])[0] == LowerChar(text[0]) != 's';
    assert text != v ==> text[1..] == v;
  }

  /**
   What the driver reads off `strata --version`: whatever blank lines come first
   and whatever follows, the first line with anything on it gives the version it
   names, with or without the program's name and a leading v.
   */
  lemma PrintedVersion(out: string, blanks: seq<string>, line: string, rest: seq<string>, name: string, gap: string,
                       text: string, v: string)
    requires NewlinesOnly(out) == Join(blanks + [line] + rest, '\n') && Free(blanks + [line] + rest, '\n')
    requires forall i :: 0 <= i < |blanks| ==> Strip(blanks[i]) == ""
    requires Spells(text, v) && (Strip(line) == text || (IsName(name, gap) && Strip(line) == name + gap + text))
    ensures IsCli(out) && Observed(out) == v
  {
    SpelledVersion(text, v);
    SplitJoin(blanks + [line] + rest, '\n');
    FirstNonBlankIs(blanks, line, rest);
    if Strip(line) != text {
      NameDropped(name, gap, text);
    }
  }

  /** The usual output: the version that is observed is the one printed, and a good one is one that matches. */
  lemma UsualOutput(v: string, intended: string)
    requires Canonical(v) && forall i :: 0 <= i < |v| ==> !IsLineBreak(v[i])
    ensures var a := Reply(0, "strata " + v + "\n");
            IsCli(a.out) && Observed(a.out) == v && (Accepts(a, intended) <==> VersionsMatch(v, intended))
  {
    var line := "strata " + v;
    var out := line + "\n";
    StripTrims(v);
    StripTrims(line);
    assert Lower("strata") == "strata" && line == "strata" + " " + v;
    assert [] + [line] + [""] == [line, ""];
    assert Join([line, ""][1..], '\n') == "";
    assert Join([line, ""], '\n') == line + ['\n'] + "";
    assert NewlinesOnly(out) == out;
    PrintedVersion(out, [], line, [""], "strata", " ", v, v);
  }

  /** Everything outside the driver. */
  datatype World = World(
    answers: nat -> Answer,                  // to the n-th event of the run
    supported: bool,
    archiveMissing: bool,
    archiveGiven: bool,
    resolved: Option<string>,                // the intended version, when it can be resolved
    grim: bool,                              // the compositor's screenshot tool is grim
    helpersPresent: bool,                    // the smoke scripts are on the host
    turns: nat -> nat,                       // how many turns the clock allows a wait that starts at the n-th event
    sessionOk: string -> bool,               // the exports name a Wayland display
    seeded: string -> Option<string>,        // FROM_VERSION in the output
    digestOk: string -> bool,                // a SHA-256 of install.sh in the output
    entryOk: string -> bool,                 // Exec= points at the installed binary
    windowUp: (int, string) -> bool,         // the window oracle says yes
    injected: string -> nat,                 // INPUT: 1 wtype, 2 hyprctl-open, 0 anything else
    keysOk: nat -> bool,                     // the QMP chords sent at the n-th event go through
    vncOk: nat -> bool,                      // the VNC fallback at the n-th event works
    pngOk: nat -> bool                       // the screenshot file is a PNG after the n-th event
  )

  datatype Got = Out(returncode: int, out: string) | Exc(exn: Exn)

  datatype Place = Early | FirstWindow | FinalWindow | Elsewhere

  datatype Result = Done | Failed(place: Place, exn: Exn)

  // ------------------------------------------------------------------
  // What a run shows
  // ------------------------------------------------------------------

  /** The answer is the good one: what the plan asks of this command, the version probe excepted. */
  ghost predicate Proves(w: World, cmd: Cmd, a: Answer) {
    a.Reply? &&
    match cmd
    case SessionSmoke => a.returncode == 0 && w.sessionOk(a.out)
    case Previous => a.returncode == 0 && w.seeded(a.out).Some?
    case TestBinary => a.returncode == 0
    case Launch => a.returncode == 0
    case WindowProbe => w.windowUp(a.returncode, a.out)
    case Latest => a.returncode == 0 && w.digestOk(a.out)
    case EntryProbe => a.returncode == 0 && w.entryOk(a.out)
    case _ => false
  }

  predicate Worked(a: Answer) {
    a.Reply? && a.returncode == 0
  }

  /** Commands that have to work whenever they are sent. */
  predicate Demanded(c: Cmd) {
    c == Upload || c == Previous || c == TestBinary || c == ToolProbe || c == Launch || c == Latest || c == EntryProbe
  }

  /** What `ssh_run` makes of an answer. */
  function Back(a: Answer, check: bool): Got {
    match a
    case Reply(returncode, out) => if check && returncode != 0 then Exc(Smoke) else Out(returncode, out)
    case Hangs => Exc(Expired)
    case Broken => Exc(Os)
  }

  /** The exception that comes of an answer which had to be good. */
  function ExnOf(a: Answer): Exn {
    match a
    case Reply(_, _) => Smoke
    case Hangs => Expired
    case Broken => Os
  }

  /**
   Of the events so far: the ordered commands, the commands with a good answer, the
   versions that were printed, and how many demanded commands did not work.
   */
  datatype Log = Log(ordered: seq<Cmd>, proven: seq<Cmd>, seeded: seq<string>, observed: seq<string>, refused: nat)

  /** The same but for commands that did not work. */
  ghost predicate Same(a: Log, b: Log) {
    a.(refused := b.refused) == b
  }

  ghost function After(w: World, log: Log, cmd: Cmd, a: Answer): Log {
    Log(if IsMilestone(cmd) then log.ordered + [cmd] else log.ordered,
        if Proves(w, cmd, a) then log.proven + [cmd] else log.proven,
        if cmd == Previous && Proves(w, cmd, a) then log.seeded + [w.seeded(a.out).value] else log.seeded,
        if cmd == VersionProbe && a.Reply? && IsCli(a.out) then log.observed + [Observed(a.out)] else log.observed,
        if Demanded(cmd) && !Worked(a) then log.refused + 1 else log.refused)
  }

  ghost function LogOf(w: World, trace: seq<Event>): Log {
    if trace == [] then Log([], [], [], [], 0)
    else
      var front, last := LogOf(w, trace[..|trace| - 1]), trace[|trace| - 1];
      if last.Ran? then After(w, front, last.cmd, w.answers(|trace|)) else front
  }

  lemma {:induction false} LogNext(w: World, trace: seq<Event>, e: Event)
    ensures LogOf(w, trace + [e])
            == if e.Ran? then After(w, LogOf(w, trace), e.cmd, w.answers(|trace| + 1)) else LogOf(w, trace)
  {
    var whole := trace + [e];
    assert whole != [] && |whole| - 1 == |trace| && whole[|trace|] == e;
    assert whole[..|trace|] == trace;
  }

  /** The answers after which the version oracle goes on: no answer in time, no version, or a good one. */
  ghost predicate Accepts(a: Answer, intended: string) {
    match a
    case Hangs => true
    case Broken => false
    case Reply(returncode, out) => !IsCli(out) || (returncode == 0 && VersionsMatch(Observed(out), intended))
  }

  /** The step the version oracle adds after an answer it accepts. */
  ghost predicate OracleStep(s: Step, name: StepName, intended: string, a: Answer) {
    && s.name == name
    && (s.passed <==> a.Reply? && IsCli(a.out))
    && (s.passed ==> s.intended == Some(intended) && s.observed == Some(Observed(a.out)))
    && (!s.passed ==> s.observed.None?)
  }

  /** A version step of a finished run: a skip, or a pass whose observed version matches. */
  ghost predicate Checked(s: Step, name: StepName, intended: string) {
    s.name == name &&
    if s.passed then s.intended == Some(intended) && s.observed.Some? && VersionsMatch(s.observed.value, intended)
    else s.observed.None?
  }

  /** The version a step says was observed. */
  ghost function Recorded(s: Step): seq<string> {
    if s.passed && s.observed.Some? then [s.observed.value] else []
  }

  class Driver {
    const w: World
    var trace: seq<Event>
    var steps: seq<Step>
    var shots: nat            // screenshots attempted
    var shotsAtLaunch: nat    // screenshots attempted before the latest launch

    constructor (w: World)
      ensures this.w == w && trace == [] && steps == [] && shots == 0 && shotsAtLaunch == 0
    {
      this.w := w;
      trace, steps, shots, shotsAtLaunch := [], [], 0, 0;
    }

    ghost function Logged(): Log
      reads this
    {
      LogOf(w, trace)
    }

    /** `ssh_run`, and the scp helpers with `check`: what comes back is the guest's answer to this command. */
    method Ssh(cmd: Cmd, check: bool) returns (g: Got)
      modifies this`trace
      ensures |trace| == |old(trace)| + 1 && trace[|old(trace)|] == Ran(cmd)
      ensures Logged() == After(w, old(Logged()), cmd, w.answers(|trace|))
      ensures g == Back(w.answers(|trace|), check)
    {
      LogNext(w, trace, Ran(cmd));
      trace := trace + [Ran(cmd)];
      match w.answers(|trace|) {
        case Reply(returncode, out) =>
          if check && returncode != 0 {
            return Exc(Smoke);
          }
          return Out(returncode, out);
        case Hangs => return Exc(Expired);
        case Broken => return Exc(Os);
      }
    }

    /** A command that is no part of the plan. */
    method Ask(cmd: Cmd, check: bool) returns (g: Got)
      requires cmd == Upload || cmd == ToolProbe || cmd == Grab || cmd == Fetch || cmd == AboutSmoke
      modifies this`trace
      ensures |trace| == |old(trace)| + 1 && trace[|old(trace)|] == Ran(cmd)
      ensures g == Back(w.answers(|trace|), check)
      ensures Logged() == if Demanded(cmd) && !Worked(w.answers(|trace|))
                          then old(Logged()).(refused := old(Logged()).refused + 1) else old(Logged())
    {
      g := Ssh(cmd, check);
    }

    /** A command that is no part of the plan and has to work. */
    method Demand(cmd: Cmd) returns (exn: Option<Exn>)
      requires cmd == Upload || cmd == ToolProbe
      modifies this`trace
      ensures |trace| == |old(trace)| + 1 && trace[|old(trace)|] == Ran(cmd)
      ensures Same(old(Logged()), Logged()) && (exn.None? ==> Logged() == old(Logged()))
      ensures exn == if Worked(w.answers(|trace|)) then None else Some(ExnOf(w.answers(|trace|)))
    {
      var g := Ask(cmd, true);
      return if g.Exc? then Some(g.exn) else None;
    }

    /** The first `m` ordered commands, the first `p` good answers and the first `n` steps of the plan. */
    ghost predicate At(m: nat, p: nat, n: nat)
      requires m <= |MILESTONES| && p <= |CHECKPOINTS|
      reads this
    {
      && Logged().ordered == MILESTONES[..m] && Logged().proven == CHECKPOINTS[..p]
      && Planned(steps) && |steps| == n
    }

    /** The ordered commands, the good answers and the steps are prefixes of the planned ones. */
    ghost predicate OnTrack()
      reads this
    {
      Logged().ordered <= MILESTONES && Logged().proven <= CHECKPOINTS && Planned(steps)
    }

    method Append(name: StepName, passed: bool)
      modifies this`steps
      ensures Adds(old(steps), steps) && steps[|old(steps)|] == Step(name, passed, None, None)
    {
      steps := steps + [Step(name, passed, None, None)];
    }

    /** The answers of the session smoke after which it is asked again. */
    ghost predicate NotYet(a: Answer) {
      a.Reply? && a.returncode != 0 && !Contains(Lower(a.out), "x11")
    }

    /** One turn of the session wait; `None` when it goes on, else the exception, if any. */
    method AskSession() returns (verdict: Option<Option<Exn>>)
      modifies this`trace
      ensures |trace| == |old(trace)| + 1
      ensures verdict == if NotYet(w.answers(|trace|)) then None
                         else if Proves(w, SessionSmoke, w.answers(|trace|)) then Some(None)
                         else Some(Some(ExnOf(w.answers(|trace|))))
      ensures Logged() == if verdict == Some(None) then old(Logged()).(proven := old(Logged()).proven + [SessionSmoke])
                          else old(Logged())
    {
      var g := Ssh(SessionSmoke, false);
      if g.Exc? { return Some(Some(g.exn)); }
      if g.returncode == 0 {
        return Some(if w.sessionOk(g.out) then None else Some(Smoke));
      }
      return if Contains(Lower(g.out), "x11") then Some(Some(Smoke)) else None;
    }

    /** The wait of `run_session_step`. */
    method AwaitSession() returns (exn: Option<Exn>)
      modifies this`trace
      ensures if exn.Some? then Logged() == old(Logged())
              else Logged() == old(Logged()).(proven := old(Logged()).proven + [SessionSmoke])
      ensures |old(trace)| <= |trace| && forall k :: |old(trace)| + 1 <= k < |trace| ==> NotYet(w.answers(k))
      ensures if |trace| == |old(trace)| || NotYet(w.answers(|trace|))
              then exn == Some(TimeUp) && |trace| == |old(trace)| + w.turns(|old(trace)|)
              else if Proves(w, SessionSmoke, w.answers(|trace|)) then exn == None
              else exn == Some(ExnOf(w.answers(|trace|)))
    {
      var turns := w.turns(|trace|);
      for i := 0 to turns
        invariant Logged() == old(Logged()) && |trace| == |old(trace)| + i
        invariant forall k :: |old(trace)| + 1 <= k <= |trace| ==> NotYet(w.answers(k))
      {
        var verdict := AskSession();
        if verdict.Some? { return verdict.value; }
      }
      return Some(TimeUp);
    }

    /**
     `run_session_step`: the smoke is asked again after a non-zero status that does
     not speak of x11, as long as the clock allows; any other answer decides.
     */
    method Session() returns (exn: Option<Exn>)
      modifies this`trace
      ensures if exn.Some? then Same(old(Logged()), Logged())
              else Logged() == old(Logged()).(proven := old(Logged()).proven + [SessionSmoke])
      ensures !w.helpersPresent ==> exn == Some(Smoke) && |trace| == |old(trace)|
      ensures w.helpersPresent && !Worked(w.answers(|old(trace)| + 1)) ==>
                exn == Some(ExnOf(w.answers(|old(trace)| + 1))) && |trace| == |old(trace)| + 1
      ensures w.helpersPresent && Worked(w.answers(|old(trace)| + 1)) ==>
                && |old(trace)| + 1 <= |trace|
                && (forall k :: |old(trace)| + 2 <= k < |trace| ==> NotYet(w.answers(k)))
                && if |trace| == |old(trace)| + 1 || NotYet(w.answers(|trace|))
                   then exn == Some(TimeUp) && |trace| == |old(trace)| + 1 + w.turns(|old(trace)| + 1)
                   else if Proves(w, SessionSmoke, w.answers(|trace|)) then exn == None
                   else exn == Some(ExnOf(w.answers(|trace|)))
    {
      if !w.helpersPresent { return Some(Smoke); }
      exn := Demand(Upload);
      if exn.Some? { return; }
      exn := AwaitSession();
    }

    /** The window is not there yet. */
    ghost predicate NoWindow(a: Answer) {
      a.Reply? && !w.windowUp(a.returncode, a.out)
    }

    /** One turn of the window wait. */
    method AskWindow() returns (verdict: Option<Option<Exn>>)
      modifies this`trace
      ensures |trace| == |old(trace)| + 1
      ensures verdict == if NoWindow(w.answers(|trace|)) then None
                         else Some(if w.answers(|trace|).Reply? then None else Some(ExnOf(w.answers(|trace|))))
      ensures Logged() == if verdict == Some(None) then old(Logged()).(proven := old(Logged()).proven + [WindowProbe])
                          else old(Logged())
    {
      var g := Ssh(WindowProbe, false);
      if g.Exc? { return Some(Some(g.exn)); }
      return if w.windowUp(g.returncode, g.out) then Some(None) else None;
    }

    /** `wait_hyprland_class` and `wait_gnome_bus_name`: asked again while there is no window and the clock allows. */
    method WaitWindow() returns (exn: Option<Exn>)
      modifies this`trace
      ensures if exn.Some? then Logged() == old(Logged())
              else Logged() == old(Logged()).(proven := old(Logged()).proven + [WindowProbe])
      ensures |old(trace)| <= |trace| && forall k :: |old(trace)| + 1 <= k < |trace| ==> NoWindow(w.answers(k))
      ensures if |trace| == |old(trace)| || NoWindow(w.answers(|trace|))
              then exn == Some(TimeUp) && |trace| == |old(trace)| + w.turns(|old(trace)|)
              else exn == if w.answers(|trace|).Reply? then None else Some(ExnOf(w.answers(|trace|)))
    {
      var turns := w.turns(|trace|);
      for i := 0 to turns
        invariant Logged() == old(Logged()) && |trace| == |old(trace)| + i
        invariant forall k :: |old(trace)| + 1 <= k <= |trace| ==> NoWindow(w.answers(k))
      {
        var verdict := AskWindow();
        if verdict.Some? { return verdict.value; }
      }
      return Some(TimeUp);
    }

    /** The QEMU framebuffer grab that stands in for a failed `gnome-screenshot`; it may replace the file. */
    method VncGrab() returns (ok: bool)
      modifies this`trace
      ensures |trace| == |old(trace)| + 1 && trace[|old(trace)|] == VncGrabbed && Logged() == old(Logged())
      ensures ok == w.vncOk(|trace|)
    {
      LogNext(w, trace, VncGrabbed);
      trace := trace + [VncGrabbed];
      ok := w.vncOk(|trace|);
    }

    /** A failure of the tool or the fetch that ends the capture: any with grim, only an OSError without. */
    ghost predicate Fatal(a: Answer) {
      !Worked(a) && (w.grim || a.Broken?)
    }

    /** A command of the capture: it worked, or failed in a way that ends the capture or not. */
    method Shoot(cmd: Cmd) returns (exn: Option<Exn>, worked: bool)
      requires cmd == Grab || cmd == Fetch
      modifies this`trace
      ensures |trace| == |old(trace)| + 1 && trace[|old(trace)|] == Ran(cmd) && Logged() == old(Logged())
      ensures worked <==> Worked(w.answers(|trace|))
      ensures exn == if Fatal(w.answers(|trace|)) then Some(ExnOf(w.answers(|trace|))) else None
    {
      var g := Ask(cmd, true);
      if g.Exc? {
        return if w.grim || g.exn == Os then Some(g.exn) else None, false;
      }
      return None, true;
    }

    /** The tool in the guest, up to the fetch: whether a file was fetched, or the exception that ends the capture. */
    method GrabInGuest() returns (exn: Option<Exn>, grabbed: bool)
      modifies this`trace
      ensures if exn.None? then Logged() == old(Logged()) else Same(old(Logged()), Logged())
      ensures var n := |old(trace)|;
              var tool, grab, fetch := w.answers(n + 1), w.answers(n + 2), w.answers(n + 3);
              && |trace| == n + (if !Worked(tool) then 1 else if !Worked(grab) then 2 else 3)
              && (grabbed <==> Worked(tool) && Worked(grab) && Worked(fetch))
              && (exn.None? <==> Worked(tool) && !Fatal(grab) && (Worked(grab) ==> !Fatal(fetch)))
              && (exn.Some? ==> exn.value == ExnOf(w.answers(|trace|)))
      ensures grabbed ==> trace[|trace| - 1] == Ran(Fetch)
    {
      exn := Demand(ToolProbe);
      if exn.Some? { return exn, false; }
      exn, grabbed := Shoot(Grab);
      if !grabbed { return; }
      exn, grabbed := Shoot(Fetch);
    }

    /**
     `capture_guest_screenshot`: it returns only when the tool is there and the
     file it leaves is a PNG after the last thing that wrote it: the fetch, or the
     VNC fallback, to which it turns only without grim and only when the fetch left
     no PNG.
     */
    method Capture() returns (exn: Option<Exn>)
      modifies this`trace, this`shots
      ensures if exn.None? then Logged() == old(Logged()) else Same(old(Logged()), Logged())
      ensures shots == old(shots) + 1
      ensures |trace| > |old(trace)| && (exn.None? ==> w.pngOk(|trace|))
      ensures var n := |old(trace)|;
              var tool, grab, fetch := w.answers(n + 1), w.answers(n + 2), w.answers(n + 3);
              if !Worked(tool) || Fatal(grab) || (Worked(grab) && Fatal(fetch)) then exn.Some?
              else if Worked(grab) && Worked(fetch) && w.pngOk(n + 3) then exn.None? && |trace| == n + 3
              else if w.grim then exn == Some(Smoke)
              else trace[|trace| - 1] == VncGrabbed && |trace| == n + (if Worked(grab) then 4 else 3) &&
                   (exn.None? <==> w.vncOk(|trace|) && w.pngOk(|trace|))
    {
      shots := shots + 1;
      var grabbed;
      exn, grabbed := GrabInGuest();
      if exn.Some? { return; }
      if !w.grim && (!grabbed || !w.pngOk(|trace|)) {
        var repaired := VncGrab();
        if !repaired {
          return Some(Smoke);
        }
      }
      return if w.pngOk(|trace|) then None else Some(Smoke);
    }

    /** `_send_qmp_chords`. */
    method SendKeys() returns (ok: bool)
      modifies this`trace
      ensures |trace| == |old(trace)| + 1 && trace[|old(trace)|] == KeysSent && Logged() == old(Logged())
      ensures ok == w.keysOk(|trace|)
    {
      LogNext(w, trace, KeysSent);
      trace := trace + [KeysSent];
      ok := w.keysOk(|trace|);
    }

    /** The chords that open the page, each of which has to go through. */
    method Chords() returns (ok: bool)
      modifies this`trace
      ensures Logged() == old(Logged())
      ensures var n := |old(trace)|;
              if w.keysOk(n + 1) then |trace| == n + 2 && (ok <==> w.keysOk(n + 2)) else |trace| == n + 1 && !ok
      ensures !ok ==> trace[|trace| - 1] == KeysSent && !w.keysOk(|trace|)
    {
      ok := SendKeys();
      if ok {
        ok := SendKeys();
      }
    }

    /**
     Whether the About page could be opened: by the guest's own tool, else by the
     tool's window and chords, else by chords alone, which all have to go through.
     */
    method OpenAbout() returns (exn: Option<Exn>, used: bool)
      modifies this`trace
      ensures if exn.None? then Logged() == old(Logged()) else Same(old(Logged()), Logged()) && !used
      ensures var n := |old(trace)|;
              var up, smoke := w.answers(n + 1), w.answers(n + 2);
              && (exn.None? <==> w.helpersPresent && Worked(up) && smoke.Reply?)
              && |trace| >= n
              && (exn.None? ==>
                    var tool := if Worked(smoke) then w.injected(smoke.out) else 0;
                    var m := if tool == 2 then n + 3 else n + 2;
                    if tool == 1 then used && |trace| == n + 2
                    else if tool == 2 && w.keysOk(n + 3) then used && |trace| == n + 3
                    else if w.keysOk(m + 1) then |trace| == m + 2 && (used <==> w.keysOk(m + 2))
                    else |trace| == m + 1 && !used)
      ensures exn.None? && !used ==> trace != [] && trace[|trace| - 1] == KeysSent && !w.keysOk(|trace|)
    {
      used := false;
      if !w.helpersPresent { return Some(Smoke), false; }
      exn := Demand(Upload);
      if exn.Some? { return; }
      var g := Ask(AboutSmoke, false);
      if g.Exc? { return Some(g.exn), false; }
      used := g.returncode == 0 && w.injected(g.out) == 1;
      if g.returncode == 0 && w.injected(g.out) == 2 {
        used := SendKeys();
      }
      if !used {
        used := Chords();
      }
      return None, used;
    }

    /** `run_about_version_step` with `cli_version_passed=False`: it passes exactly with a screenshot, which is a PNG. */
    method About(name: StepName) returns (exn: Option<Exn>)
      modifies this`trace, this`shots, this`steps
      ensures if exn.None? then Logged() == old(Logged()) else Same(old(Logged()), Logged())
      ensures if exn.None? then Adds(old(steps), steps) && steps[|old(steps)|].name == name else steps == old(steps)
      ensures shots >= old(shots)
      ensures exn.None? ==> (steps[|old(steps)|].passed <==> shots == old(shots) + 1)
      ensures exn.None? && steps[|old(steps)|].passed ==> w.pngOk(|trace|)
      ensures exn.None? && !steps[|old(steps)|].passed ==>
                shots == old(shots) && trace != [] && trace[|trace| - 1] == KeysSent && !w.keysOk(|trace|)
    {
      var used;
      exn, used := OpenAbout();
      if exn.Some? { return; }
      if used {
        exn := Capture();
        if exn.Some? { return; }
      }
      Append(name, used);
      return None;
    }

    /**
     `run_version_oracle`: it goes on exactly after an answer it accepts, and the
     step it adds passes exactly when that answer is a version, which is the one
     recorded.
     */
    method VersionOracle(name: StepName, intended: string) returns (exn: Option<Exn>)
      modifies this`trace, this`steps
      ensures |trace| == |old(trace)| + 1 && trace[|old(trace)|] == Ran(VersionProbe)
      ensures Logged() == After(w, old(Logged()), VersionProbe, w.answers(|trace|))
      ensures exn.None? <==> Accepts(w.answers(|trace|), intended)
      ensures if exn.None? then Adds(old(steps), steps) &&
                                OracleStep(steps[|old(steps)|], name, intended, w.answers(|trace|))
              else steps == old(steps)
    {
      var g := Ssh(VersionProbe, false);
      var s := Step(name, false, None, None);
      if g.Exc? {
        if g.exn != Expired { return Some(g.exn); }
      } else if IsCli(g.out) {
        if g.returncode != 0 { return Some(Smoke); }
        var observed := Observed(g.out);
        if !VersionsMatch(observed, intended) { return Some(Smoke); }
        s := Step(name, true, Some(intended), Some(observed));
      }
      steps := steps + [s];
      return None;
    }

    /** The oracle inside a run: one more step, one more observed version if it passes. */
    method OracleChecked(name: StepName, intended: string) returns (exn: Option<Exn>)
      modifies this`trace, this`steps
      ensures Logged().ordered == old(Logged()).ordered && Logged().proven == old(Logged()).proven
      ensures Logged().seeded == old(Logged()).seeded && Logged().refused == old(Logged()).refused
      ensures exn.Some? ==> steps == old(steps)
      ensures exn.None? ==> Adds(old(steps), steps) && Checked(steps[|old(steps)|], name, intended) &&
                            Logged().observed == old(Logged()).observed + Recorded(steps[|old(steps)|])
    {
      exn := VersionOracle(name, intended);
      assert old(Logged()).observed + [] == old(Logged()).observed;
    }

    /** `launch_desktop_entry_command` under `ssh_run` with `check`. */
    method LaunchApp() returns (exn: Option<Exn>)
      modifies this`trace, this`shotsAtLaunch
      ensures var l := old(Logged()).(ordered := old(Logged()).ordered + [Launch]);
              if exn.Some? then Same(l, Logged()) else Logged() == l.(proven := l.proven + [Launch])
      ensures shotsAtLaunch == shots
    {
      shotsAtLaunch := shots;
      var g := Ssh(Launch, true);
      return if g.Exc? then Some(g.exn) else None;
    }

    /** A command under `check`; `None` when it worked. */
    method Check(cmd: Cmd) returns (exn: Option<Exn>)
      modifies this`trace
      ensures Logged() == After(w, old(Logged()), cmd, w.answers(|trace|))
      ensures |trace| == |old(trace)| + 1 && trace[|old(trace)|] == Ran(cmd)
      ensures exn.None? <==> Worked(w.answers(|trace|))
    {
      var g := Ssh(cmd, true);
      return if g.Exc? then Some(g.exn) else None;
    }

    /** `_ensure_screenshot_tool`. */
    method EnsureTool() returns (exn: Option<Exn>)
      modifies this`trace
      ensures |trace| == |old(trace)| + 1
      ensures if exn.None? then Logged() == old(Logged()) else Same(old(Logged()), Logged())
      ensures exn == if Worked(w.answers(|trace|)) then None else Some(ExnOf(w.answers(|trace|)))
    {
      exn := Demand(ToolProbe);
    }

    /** The uploads: the install script, and the archive when one is given. */
    method PreviousUploaded() returns (exn: Option<Exn>)
      modifies this`trace
      ensures if exn.None? then Logged() == old(Logged()) else Same(old(Logged()), Logged())
      ensures exn.None? <==> w.helpersPresent && Worked(w.answers(|old(trace)| + 1)) &&
                             (w.archiveGiven ==> Worked(w.answers(|old(trace)| + 2)))
      ensures exn.None? ==> |trace| == |old(trace)| + if w.archiveGiven then 2 else 1
    {
      if !w.helpersPresent { return Some(Smoke); }
      exn := Demand(Upload);
      if exn.Some? { return; }
      if w.archiveGiven {
        exn := Demand(Upload);
      }
    }

    /** The previous release's install command, and what it says it installed. */
    method PreviousRun(fromVer: string) returns (exn: Option<Exn>)
      modifies this`trace
      ensures var l := old(Logged()).(ordered := old(Logged()).ordered + [Previous]);
              if exn.None? then
                |Logged().seeded| == |l.seeded| + 1 && VersionsMatch(Logged().seeded[|l.seeded|], fromVer) &&
                Logged() == l.(proven := l.proven + [Previous], seeded := l.seeded + [Logged().seeded[|l.seeded|]])
              else Logged().ordered == l.ordered && Logged().observed == l.observed &&
                   (Logged().proven == l.proven || Logged().proven == l.proven + [Previous])
    {
      var g := Ssh(Previous, true);
      if g.Exc? { return Some(g.exn); }
      var seeded := w.seeded(g.out);
      return if seeded.None? || !VersionsMatch(seeded.value, fromVer) then Some(Smoke) else None;
    }

    /** The command that tests the installed binary. */
    method TestInstalled() returns (exn: Option<Exn>)
      modifies this`trace
      ensures if exn.Some? then Same(old(Logged()), Logged())
              else Logged() == old(Logged()).(proven := old(Logged()).proven + [TestBinary])
    {
      exn := Check(TestBinary);
    }

    /** The uploads and the install-previous step. */
    method PreviousInstalled(fromVer: string) returns (exn: Option<Exn>)
      requires At(0, 1, 1)
      modifies this`trace, this`steps
      ensures OnTrack() && (exn.None? ==> old(steps) <= steps && At(1, 3, 2)) && (exn.Some? ==> steps == old(steps))
      ensures exn.None? ==> Logged().refused == old(Logged()).refused
      ensures Logged().observed == old(Logged()).observed
      ensures exn.None? ==> |Logged().seeded| == |old(Logged()).seeded| + 1 &&
                            Logged().seeded[..|old(Logged()).seeded|] == old(Logged()).seeded &&
                            VersionsMatch(Logged().seeded[|old(Logged()).seeded|], fromVer)
    {
      PlanNext(MILESTONES, 0);
      PlanNext(CHECKPOINTS, 1);
      PlanNext(CHECKPOINTS, 2);
      exn := PreviousUploaded();
      if exn.Some? { return; }
      exn := PreviousRun(fromVer);
      if exn.Some? { return; }
      exn := TestInstalled();
      if exn.Some? { return; }
      Append(InstallPrevious, true);
      PlannedNext(old(steps), steps);
    }

    /** The first launch and its window. */
    method PreviousShown() returns (r: Result)
      requires At(1, 3, 3)
      modifies this`trace, this`shotsAtLaunch
      ensures OnTrack() && (r == Done ==> At(2, 5, 3))
      ensures r == Done ==> Logged().refused == old(Logged()).refused
      ensures Logged().observed == old(Logged()).observed && Logged().seeded == old(Logged()).seeded
      ensures r.Failed? ==> r.place == Elsewhere || r.place == FirstWindow
    {
      PlanNext(MILESTONES, 1);
      PlanNext(CHECKPOINTS, 3);
      PlanNext(CHECKPOINTS, 4);
      var exn := EnsureTool();
      if exn.Some? { return Failed(Elsewhere, exn.value); }
      exn := LaunchApp();
      if exn.Some? { return Failed(Elsewhere, exn.value); }
      exn := WaitWindow();
      if exn.Some? { return Failed(FirstWindow, exn.value); }
      return Done;
    }

    /** The quit command: what it answers does not matter, that it answers does. */
    method QuitApp() returns (exn: Option<Exn>)
      modifies this`trace
      ensures |trace| == |old(trace)| + 1
      ensures Logged() == old(Logged()).(ordered := old(Logged()).ordered + [Quit])
      ensures exn == if w.answers(|trace|).Reply? then None else Some(ExnOf(w.answers(|trace|)))
    {
      var g := Ssh(Quit, false);
      return if g.Exc? then Some(g.exn) else None;
    }

    /** The first window and About check, up to the quit command. */
    method PreviousChecked() returns (r: Result)
      requires At(1, 3, 3) && shots == 0
      modifies this`trace, this`steps, this`shots, this`shotsAtLaunch
      ensures OnTrack() && (r == Done ==> old(steps) <= steps && At(3, 5, 4))
      ensures r == Done ==> Logged().refused == old(Logged()).refused
      ensures Logged().observed == old(Logged()).observed && Logged().seeded == old(Logged()).seeded
      ensures r.Failed? ==> r.place == Elsewhere || (r.place == FirstWindow && shots == 0)
    {
      r := PreviousShown();
      if r.Failed? { return; }
      PlanNext(MILESTONES, 2);
      var exn := About(AboutVersionBefore);
      if exn.Some? { return Failed(Elsewhere, exn.value); }
      PlannedNext(old(steps), steps);
      exn := QuitApp();
      return if exn.Some? then Failed(Elsewhere, exn.value) else Done;
    }

    /** The update's install command, and the digest it prints. */
    method LatestRun() returns (exn: Option<Exn>)
      modifies this`trace
      ensures var l := old(Logged()).(ordered := old(Logged()).ordered + [Latest]);
              if exn.Some? then Same(l, Logged()) else Logged() == l.(proven := l.proven + [Latest])
    {
      var g := Ssh(Latest, true);
      if g.Exc? { return Some(g.exn); }
      return if w.digestOk(g.out) then None else Some(Smoke);
    }

    /** The update step. */
    method Updated() returns (exn: Option<Exn>)
      requires At(3, 5, 4)
      modifies this`trace, this`steps
      ensures OnTrack() && (exn.None? ==> old(steps) <= steps && At(4, 7, 5)) && (exn.Some? ==> steps == old(steps))
      ensures exn.None? ==> Logged().refused == old(Logged()).refused
      ensures Logged().observed == old(Logged()).observed && Logged().seeded == old(Logged()).seeded
    {
      PlanNext(MILESTONES, 3);
      PlanNext(CHECKPOINTS, 5);
      PlanNext(CHECKPOINTS, 6);
      exn := LatestRun();
      if exn.Some? { return; }
      exn := TestInstalled();
      if exn.Some? { return; }
      Append(Update, true);
      PlannedNext(old(steps), steps);
    }

    /** The desktop entry, and where it points. */
    method EntryRead() returns (exn: Option<Exn>)
      modifies this`trace
      ensures if exn.Some? then Same(old(Logged()), Logged())
              else Logged() == old(Logged()).(proven := old(Logged()).proven + [EntryProbe])
    {
      var g := Ssh(EntryProbe, true);
      if g.Exc? { return Some(g.exn); }
      return if w.entryOk(g.out) then None else Some(Smoke);
    }

    /** The desktop-entry step. */
    method EntryChecked() returns (exn: Option<Exn>)
      requires At(4, 7, 6)
      modifies this`trace, this`steps
      ensures OnTrack() && (exn.None? ==> old(steps) <= steps && At(4, 8, 7)) && (exn.Some? ==> steps == old(steps))
      ensures exn.None? ==> Logged().refused == old(Logged()).refused
      ensures Logged().observed == old(Logged()).observed && Logged().seeded == old(Logged()).seeded
    {
      PlanNext(CHECKPOINTS, 7);
      exn := EntryRead();
      if exn.Some? { return; }
      Append(DesktopEntry, true);
      PlannedNext(old(steps), steps);
    }

    /** The second launch, and whether its window came; `Failed` only when the launch did not work. */
    method LatestShown() returns (r: Result, windowError: Option<Exn>)
      requires At(4, 8, 7)
      modifies this`trace, this`shotsAtLaunch
      ensures OnTrack() && (r == Done && windowError.None? ==> At(5, 10, 7))
      ensures r == Done ==> Logged().refused == old(Logged()).refused
      ensures Logged().observed == old(Logged()).observed && Logged().seeded == old(Logged()).seeded
      ensures r.Failed? ==> r.place == Elsewhere
      ensures r == Done ==> shotsAtLaunch == shots
      ensures r == Done && windowError.Some? ==> windowError.value == TimeUp || windowError.value == Smoke
    {
      windowError := None;
      PlanNext(MILESTONES, 4);
      PlanNext(CHECKPOINTS, 8);
      PlanNext(CHECKPOINTS, 9);
      var exn := EnsureTool();
      if exn.Some? { return Failed(Elsewhere, exn.value), None; }
      exn := LaunchApp();
      if exn.Some? { return Failed(Elsewhere, exn.value), None; }
      windowError := WaitWindow();
      if windowError.Some? && windowError.value != TimeUp && windowError.value != Smoke {
        return Failed(Elsewhere, windowError.value), None;
      }
      return Done, windowError;
    }

    /**
     The second launch and the window step: a window failure is kept until the
     screenshot has been attempted, and the step is recorded only with one.
     */
    method WindowChecked() returns (r: Result)
      requires At(4, 8, 7)
      modifies this`trace, this`steps, this`shots, this`shotsAtLaunch
      ensures OnTrack() && (r == Done ==> At(5, 10, 8) && old(steps) <= steps)
      ensures r == Done ==> Logged().refused == old(Logged()).refused
      ensures Logged().observed == old(Logged()).observed && Logged().seeded == old(Logged()).seeded
      ensures r == Done ==> shots > shotsAtLaunch && w.pngOk(|trace|)
      ensures r.Failed? ==> r.place == Elsewhere || (r.place == FinalWindow && shots > shotsAtLaunch)
    {
      var windowError;
      r, windowError := LatestShown();
      if r.Failed? { return; }
      var exn := Capture();
      if exn.Some? { return Failed(Elsewhere, exn.value); }
      if windowError.Some? { return Failed(FinalWindow, windowError.value); }
      Append(Window, true);
      PlannedNext(old(steps), steps);
      return Done;
    }

    /** The About step after the update. */
    method AboutAfter() returns (exn: Option<Exn>)
      requires At(5, 10, 8)
      modifies this`trace, this`steps, this`shots
      ensures OnTrack() && (exn.None? ==> At(5, 10, 9) && old(steps) <= steps) && (exn.Some? ==> steps == old(steps))
      ensures exn.None? ==> Logged().refused == old(Logged()).refused
      ensures Logged().observed == old(Logged()).observed && Logged().seeded == old(Logged()).seeded
      ensures shots >= old(shots)
    {
      exn := About(AboutVersionAfter);
      if exn.None? {
        PlannedNext(old(steps), steps);
      }
    }

    /** The phases with the previous release, up to the quit command. */
    method PreviousPhases(from: string) returns (r: Result)
      requires At(0, 1, 1) && shots == 0 && Logged().seeded == [] && Logged().observed == []
      modifies this`trace, this`steps, this`shots, this`shotsAtLaunch
      ensures OnTrack()
      ensures r == Done ==> At(3, 5, 4) && Checked(steps[2], VersionPrevious, from) &&
                            Logged().observed == Recorded(steps[2]) && Logged().refused == old(Logged()).refused &&
                            |Logged().seeded| == 1 && VersionsMatch(Logged().seeded[0], from)
      ensures r.Failed? ==> r.place == Elsewhere || (r.place == FirstWindow && shots == 0)
    {
      var exn := PreviousInstalled(from);
      if exn.Some? { return Failed(Elsewhere, exn.value); }
      ghost var before := steps;
      exn := OracleChecked(VersionPrevious, from);
      if exn.Some? { return Failed(Elsewhere, exn.value); }
      PlannedNext(before, steps);
      ghost var previous := steps[2];
      r := PreviousChecked();
      assert r == Done ==> steps[2] == previous;
    }

    /** The phases of the update. */
    method UpdatePhases(intended: string) returns (r: Result)
      requires At(3, 5, 4)
      modifies this`trace, this`steps, this`shots, this`shotsAtLaunch
      ensures OnTrack()
      ensures r == Done ==> At(5, 10, 9) && old(steps) <= steps && Checked(steps[5], VersionStep, intended) &&
                            Logged().observed == old(Logged()).observed + Recorded(steps[5]) &&
                            Logged().seeded == old(Logged()).seeded && shots > shotsAtLaunch &&
                            Logged().refused == old(Logged()).refused
      ensures r.Failed? ==> r.place == Elsewhere || (r.place == FinalWindow && shots > shotsAtLaunch)
    {
      var exn := Updated();
      if exn.Some? { return Failed(Elsewhere, exn.value); }
      ghost var before := steps;
      exn := OracleChecked(VersionStep, intended);
      if exn.Some? { return Failed(Elsewhere, exn.value); }
      PlannedNext(before, steps);
      ghost var latest := steps[5];
      exn := EntryChecked();
      if exn.Some? { return Failed(Elsewhere, exn.value); }
      r := WindowChecked();
      if r.Failed? { return; }
      exn := AboutAfter();
      if exn.Some? { return Failed(Elsewhere, exn.value); }
      assert steps[5] == latest;
    }

    /** Everything the guest is asked. */
    method AllPhases(from: string, intended: string) returns (r: Result)
      requires trace == [] && steps == [] && shots == 0
      modifies this`trace, this`steps, this`shots, this`shotsAtLaunch
      ensures OnTrack()
      ensures r == Done ==>
                && At(5, 10, 9) && Checked(steps[2], VersionPrevious, from) && Checked(steps[5], VersionStep, intended)
                && |Logged().seeded| == 1 && VersionsMatch(Logged().seeded[0], from)
                && Logged().observed == Recorded(steps[2]) + Recorded(steps[5])
                && shots > shotsAtLaunch && Logged().refused == 0
      ensures r.Failed? ==> r.place == Elsewhere || (r.place == FinalWindow && shots > shotsAtLaunch) ||
                            (r.place == FirstWindow && shots == 0)
    {
      PlanNext(CHECKPOINTS, 0);
      var exn := Session();
      if exn.Some? {
        return Failed(Elsewhere, exn.value);
      }
      Append(SessionStep, true);
      r := PreviousPhases(from);
      if r.Failed? { return; }
      ghost var previous := steps[2];
      r := UpdatePhases(intended);
      assert r == Done ==> steps[2] == previous;
    }

    /** Nothing speaks against the update before the guest is asked. */
    ghost predicate Sensible(fromVersion: string) {
      && w.supported && ParseVersion(fromVersion).Version? && !w.archiveMissing && w.resolved.Some?
      && !VersionsMatch(ParseVersion(fromVersion).text, Normalize(w.resolved.value))
    }

    /**
     `run_update_from_steps` for every behaviour of the guest. At any end the
     ordered commands, the good answers and the recorded steps are prefixes of the
     planned ones, and nothing is sent unless the versions make sense. When it
     returns they are complete: the install command named the version asked for,
     each version step was skipped or passed with a matching version, and the
     versions recorded are exactly those the guest printed. A failure of the final
     window check is raised only after a screenshot attempt, one of the first
     window check without any.
     */
    method UpdateFrom(fromVersion: string) returns (r: Result, from: string, intended: string)
      requires trace == [] && steps == [] && shots == 0
      modifies this`trace, this`steps, this`shots, this`shotsAtLaunch
      ensures OnTrack()
      ensures (r.Failed? && r.place == Early) <==> !Sensible(fromVersion)
      ensures !Sensible(fromVersion) ==> trace == [] && steps == []
      ensures r == Done ==>
                && Logged().ordered == MILESTONES && Logged().proven == CHECKPOINTS && |steps| == |UPDATE_FROM_STEPS|
                && ParseVersion(fromVersion) == Version(from) && !VersionsMatch(from, intended)
                && w.resolved.Some? && VersionsMatch(w.resolved.value, intended)
                && |Logged().seeded| == 1 && VersionsMatch(Logged().seeded[0], from)
                && Checked(steps[2], VersionPrevious, from) && Checked(steps[5], VersionStep, intended)
                && Logged().observed == Recorded(steps[2]) + Recorded(steps[5])
                && shots > shotsAtLaunch && Logged().refused == 0
      ensures r.Failed? && r.place == FinalWindow ==> shots > shotsAtLaunch
      ensures r.Failed? && r.place == FirstWindow ==> shots == 0
    {
      r, from, intended := Failed(Early, Smoke), "", "";
      if !w.supported { return; }
      var parsed := ParseVersion(fromVersion);
      if !parsed.Version? { return; }
      from := parsed.text;
      if w.archiveMissing || w.resolved.None? { return; }
      intended := Normalize(w.resolved.value);
      if VersionsMatch(from, intended) { return; }
      NormalizeIdempotent(w.resolved.value);
      r := AllPhases(from, intended);
    }
  }
}

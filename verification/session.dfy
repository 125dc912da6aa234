/** `select_wayland_session` on parsed `loginctl` rows. */
module Sessions {
  import opened Wrappers
  import opened Text

  /** One listed session: SESSION, UID and SEAT. */
  datatype Row = Row(sid: string, uid: int, seat: string)

  type Props = map<string, string>

  function Get(props: Props, key: string): string {
    if key in props then props[key] else ""
  }

  /** The shown properties of the listed sessions, whose session is wanted, and the SSH session, if any. */
  datatype Query = Query(shown: map<string, Props>, uid: int, ssh: Option<string>) {
    /** The row is the user's and its properties are known. */
    predicate Known(row: Row) {
      row.uid == uid && row.sid in shown
    }

    function Field(row: Row, key: string): string
      requires Known(row)
    {
      Lower(Strip(Get(shown[row.sid], key)))
    }

    predicate IsX11(row: Row) {
      Known(row) && Field(row, "Type") == "x11"
    }

    predicate IsWayland(row: Row) {
      Known(row) && Field(row, "Type") == "wayland" && Field(row, "Class") == "user" && Field(row, "State") == "active" &&
      var seat := Get(shown[row.sid], "Seat");
      Strip(if seat != "" then seat else row.seat) == "seat0"
    }

    /** A session that may be chosen. */
    predicate Eligible(row: Row) {
      IsWayland(row) && ssh != Some(row.sid)
    }
  }

  datatype Selected = X11Failure(sid: string) | Chosen(sid: string) | NoSession | RefusedSsh

  ghost predicate FirstAt(rows: seq<Row>, p: Row -> bool, i: int) {
    0 <= i < |rows| && p(rows[i]) && forall j :: 0 <= j < i ==> !p(rows[j])
  }

  ghost predicate Any(rows: seq<Row>, p: Row -> bool) {
    exists i :: 0 <= i < |rows| && p(rows[i])
  }

  datatype Verdict = Fails | Succeeds | Nothing

  /** The verdict as a property of which rows are listed, not of their order. */
  ghost function VerdictOf(rows: seq<Row>, q: Query): Verdict {
    if Any(rows, q.IsX11) then Fails else if Any(rows, q.Eligible) then Succeeds else Nothing
  }

  /**
   The loop over the rows. An x11 session of the user anywhere in the list fails
   the selection; otherwise the first eligible session is the answer; the guard
   on the SSH session at the end is never reached.
   */
  method Select(rows: seq<Row>, q: Query) returns (r: Selected)
    ensures VerdictOf(rows, q) == if r.X11Failure? then Fails else if r.Chosen? then Succeeds else Nothing
    ensures r.X11Failure? ==> exists i :: FirstAt(rows, q.IsX11, i) && r.sid == rows[i].sid
    ensures r.Chosen? ==> q.ssh != Some(r.sid) && exists i :: FirstAt(rows, q.Eligible, i) && r.sid == rows[i].sid
    ensures r != RefusedSsh
  {
    var chosen: Option<string> := None;
    ghost var at := 0;
    for i := 0 to |rows|
      invariant forall j :: 0 <= j < i ==> !q.IsX11(rows[j])
      invariant chosen.None? ==> forall j :: 0 <= j < i ==> !q.Eligible(rows[j])
      invariant chosen.Some? ==> at < i && FirstAt(rows, q.Eligible, at) && chosen.value == rows[at].sid
    {
      var row := rows[i];
      if row.uid != q.uid || row.sid !in q.shown {
        continue;
      }
      if q.Field(row, "Type") == "x11" {
        assert FirstAt(rows, q.IsX11, i);
        return X11Failure(row.sid);
      }
      if !q.IsWayland(row) {
        continue;
      }
      if q.ssh == Some(row.sid) {
        continue;
      }
      assert q.Eligible(row);
      if chosen.None? {
        chosen, at := Some(row.sid), i;
      }
    }
    if chosen.None? {
      return NoSession;
    }
    if q.ssh == chosen {
      return RefusedSsh;
    }
    return Chosen(chosen.value);
  }

  lemma AnyPermutes(rows: seq<Row>, rows': seq<Row>, p: Row -> bool)
    requires multiset(rows) == multiset(rows') && Any(rows, p)
    ensures Any(rows', p)
  {
    var i :| 0 <= i < |rows| && p(rows[i]);
    assert rows[i] in multiset(rows');
    assert rows[i] in rows';
  }

  /** The verdict does not depend on the order in which loginctl lists the sessions. */
  lemma VerdictPermutes(rows: seq<Row>, rows': seq<Row>, q: Query)
    requires multiset(rows) == multiset(rows')
    ensures VerdictOf(rows, q) == VerdictOf(rows', q)
  {
    if Any(rows, q.IsX11) { AnyPermutes(rows, rows', q.IsX11); }
    if Any(rows', q.IsX11) { AnyPermutes(rows', rows, q.IsX11); }
    if Any(rows, q.Eligible) { AnyPermutes(rows, rows', q.Eligible); }
    if Any(rows', q.Eligible) { AnyPermutes(rows', rows, q.Eligible); }
  }

  /** What `loginctl show-session` prints of a session. */
  ghost function Printed(type_: string, class_: string, state: string, seat: string): Props {
    map["Type" := type_, "Class" := class_, "State" := state, "Seat" := seat]
  }

  /** A property value, give or take white space and case. */
  ghost predicate Reads(value: string, word: string) {
    Lower(Strip(value)) == word
  }

  /**
   What a single session comes to. Of the user's sessions, an x11 one fails; an
   active wayland session of class user at seat0, by its own seat or else by the
   listed one when that is empty or not printed, succeeds unless it is the SSH session; any other counts for nothing,
   as does a session of another user.
   */
  lemma OneSession(row: Row, q: Query, type_: string, class_: string, state: string, seat: string)
    requires row.sid in q.shown
    requires q.shown[row.sid] == Printed(type_, class_, state, seat) ||
             (seat == "" && q.shown[row.sid] == Printed(type_, class_, state, seat) - {"Seat"})
    ensures VerdictOf([row], q) ==
            if row.uid != q.uid then Nothing
            else if Reads(type_, "x11") then Fails
            else if Reads(type_, "wayland") && Reads(class_, "user") && Reads(state, "active") && q.ssh != Some(row.sid) &&
                    Strip(if seat == "" then row.seat else seat) == "seat0" then Succeeds
            else Nothing
  {
    assert [row][0] == row;
    assert Any([row], q.IsX11) <==> q.IsX11(row);
    assert Any([row], q.Eligible) <==> q.Eligible(row);
  }

  /** A session whose properties are not known counts for nothing. */
  lemma UnknownSession(row: Row, q: Query)
    requires row.sid !in q.shown
    ensures VerdictOf([row], q) == Nothing
  {
    assert !q.IsX11(row) && !q.Eligible(row);
  }
}

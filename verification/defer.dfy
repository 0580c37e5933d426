/**
 `st work defer` of shantytown/dispatch.py: stage the resume condition, prove it is
 stored, and only then hide the item.
 */
module Defer {
  import opened Basics
  import opened TextStrip
  import opened ResumeMarkers
  import opened ResumeMarkerProofs
  import opened DeferralNotes
  import opened DeferralParsed
  import opened WorkItem

  // ---------- dates ----------

  datatype Stamp = Stamp(day: int, second: int)

  /** A moment as it is written down. */
  type Spelled = s: string | s != "" witness "0"

  /** How a date is read and written; the exact ISO rules are not part of this model. */
  datatype Calendar = Calendar(read: string -> Option<Stamp>, write: Stamp -> Spelled)

  function ParseStamp(cal: Calendar, s: string): Option<Stamp> {
    if s == "" then None else cal.read(s)
  }

  predicate Digits(s: string, from: nat, n: nat) {
    from + n <= |s| && forall i | from <= i < from + n :: '0' <= s[i] <= '9'
  }

  predicate DayShape(s: string) {
    |s| >= 10 && Digits(s, 0, 4) && s[4] == '-' && Digits(s, 5, 2) && s[7] == '-' && Digits(s, 8, 2)
  }

  /** `_is_bare_date`. */
  predicate BareDate(s: string) {
    var t := Strip(s);
    |t| == 10 && DayShape(t)
  }

  /** `_valid_br_defer_until`. */
  predicate ValidUntil(cal: Calendar, s: string) {
    && (BareDate(s) || (|s| == 20 && DayShape(s) && s[10] == 'T' && Digits(s, 11, 2) && s[13] == ':'
         && Digits(s, 14, 2) && s[16] == ':' && Digits(s, 17, 2) && s[19] == 'Z'))
    && ParseStamp(cal, s).Some?
  }

  // ---------- choosing the condition ----------

  predicate Testable(c: Condition) {
    c.kind == "closed" || c.kind == "date" || c.kind == "event" || c.kind == "release" || c.kind == "installed"
  }

  /** `extra` is the text a `closed:` gate adds to the reason; `vetoed` stands for the refusals
      that need other stores (ASK items, several conditions, gate and event rules). */
  datatype Request = Request(blocker: string, reason: string, until: string, extra: string, vetoed: bool)

  datatype Choice = Choice(active: Condition, date: string, writeUntil: string, reason: string)

  predicate UsableDate(cal: Calendar, c: Condition) {
    c.kind == "date" ==> ParseStamp(cal, c.arg).Some?
  }

  /** The date the deferral must carry, and the one this call must write. */
  function ChosenDate(cal: Calendar, r: Row, req: Request): (string, string) {
    var written := ParseCondition(Strip(req.reason));
    if req.until == "" && written.Some? && written.value.kind == "date" && r.deferUntil != ""
      && ParseStamp(cal, written.value.arg).Some? then
      var arg := written.value.arg;
      var date := if BareDate(arg) then arg else cal.write(ParseStamp(cal, arg).value);
      (date, date)
    else (if req.until != "" then req.until else r.deferUntil, req.until)
  }

  function ActiveCondition(r: Row, req: Request, date: string): Option<Condition> {
    var written := ParseCondition(Strip(req.reason));
    var marker := if written.Some? then written else ParseCondition(NotesText(r));
    if req.until != "" && (written.None? || marker.value.kind == "date") then Some(Condition("date", req.until))
    else if marker.Some? then marker
    else if date != "" then Some(Condition("date", date))
    else None
  }

  /** What `defer` decides from the row it read; None when it refuses. */
  function Choose(cal: Calendar, r: Row, req: Request): Option<Choice> {
    var reason := Strip(req.reason);
    var written := ParseCondition(reason);
    var marker := if written.Some? then written else ParseCondition(NotesText(r));
    var (date, writeUntil) := ChosenDate(cal, r, req);
    var active := ActiveCondition(r, req, date);
    if reason == "" || r.status == "closed" || req.vetoed then None
    else if date != "" && (ParseStamp(cal, date).None? || (req.until != "" && !ValidUntil(cal, req.until))) then None
    else if date == "" && !(marker.Some? && Testable(marker.value) && UsableDate(cal, marker.value)) then None
    else if written.None? && req.until == "" && MarkerCount(NotesText(r)) > 1 then None
    else if active.None? || !Testable(active.value) || !UsableDate(cal, active.value) then None
    else
      var text := if active.value.kind == "closed" then reason + req.extra else reason;
      Some(Choice(active.value, date, writeUntil, CanonicalReason(text, Render(active.value))))
  }

  // ---------- what must be stored ----------

  /** A day is a promise about the day; an instant is a promise about the instant. */
  predicate DateStored(cal: Calendar, date: string, got: string) {
    date != "" ==>
      if BareDate(date) then
        ParseStamp(cal, got).Some? && ParseStamp(cal, date).Some?
        && ParseStamp(cal, got).value.day == ParseStamp(cal, date).value.day
      else ParseStamp(cal, got) == ParseStamp(cal, date)
  }

  /** The way back is stored: the reason, any required date, and exactly one marker, the chosen condition. */
  predicate Staged(cal: Calendar, c: Choice, r: Row) {
    Contains(NotesText(r), c.reason) && DateStored(cal, c.date, r.deferUntil) && OneCondition(NotesText(r), c.active)
  }

  predicate Hidden(c: Choice, blocker: string, r: Row) {
    r.status == "deferred" && r.blockerKind == blocker
  }

  datatype DeferOutcome =
    | DeferUnread
    | DeferRefused
    | DeferNoop
    | DeferPreviewed
    | DeferUnconfirmed
    | DeferLost
    | Deferred

  function StageFields(c: Choice): Fields {
    NO_FIELDS.(reason := Some(c.reason), deferUntil := if c.writeUntil != "" then Some(c.writeUntil) else None)
  }

  function HideFields(blocker: string): Fields {
    NO_FIELDS.(status := Some("deferred"), blockerKind := Some(blocker))
  }

  /** The choice made from `r` is stored in `r'`. */
  ghost predicate StagedFrom(cal: Calendar, r: Row, req: Request, r': Row) {
    Choose(cal, r, req).Some? && Staged(cal, Choose(cal, r, req).value, r')
  }

  ghost predicate HiddenFrom(cal: Calendar, r: Row, req: Request, r': Row) {
    StagedFrom(cal, r, req, r') && r'.status == "deferred" && r'.blockerKind == req.blocker
  }

  /** What any state of the row may be after a call that started at `r`. */
  ghost predicate DeferStep(cal: Calendar, r: Row, req: Request, r': Row) {
    || r' == r
    || (Choose(cal, r, req).Some?
        && r'.assignee == r.assignee && r'.openBlockers == r.openBlockers
        && (r'.status == r.status || (r'.status == "deferred" && StagedFrom(cal, r, req, r'))))
  }

  // ---------- what is chosen, from the request and the row ----------

  /** The same deadline: the same day, and to the second unless only a day was asked for. */
  predicate SameDeadline(cal: Calendar, asked: string, got: string) {
    && ParseStamp(cal, asked).Some? && ParseStamp(cal, got).Some?
    && ParseStamp(cal, got).value.day == ParseStamp(cal, asked).value.day
    && (!BareDate(asked) ==> ParseStamp(cal, got).value.second == ParseStamp(cal, asked).value.second)
  }

  /** The condition a deferral is about: one that the reason states, unless it is a date and `--until` gives
      another; `--until` itself; the one that stands in the notes; the deadline the item has. */
  ghost predicate Wanted(r: Row, req: Request, c: Condition) {
    var stated, standing := ParseCondition(Strip(req.reason)), ParseCondition(NotesText(r));
    if stated.Some? && stated.value.kind != "date" then c == stated.value
    else if req.until != "" then c == Condition("date", req.until)
    else if stated.Some? then c == stated.value
    else if standing.Some? then c == standing.value && MarkerCount(NotesText(r)) <= 1
    else r.deferUntil != "" && MarkerCount(NotesText(r)) <= 1 && c == Condition("date", r.deferUntil)
  }

  /** It can be tested: a kind that is known, and a date that can be read. */
  predicate CanBeTested(cal: Calendar, c: Condition) {
    || c.kind == "closed" || c.kind == "event" || c.kind == "release" || c.kind == "installed"
    || (c.kind == "date" && ParseStamp(cal, c.arg).Some?)
  }

  /** What a finished deferral leaves: that condition alone. */
  ghost predicate LeavesCondition(cal: Calendar, r: Row, req: Request, r': Row) {
    exists c: Condition :: Wanted(r, req, c) && CanBeTested(cal, c) && OneCondition(NotesText(r'), c)
  }

  predicate Number(s: string, n: nat) {
    |s| == n && forall i | 0 <= i < n :: '0' <= s[i] <= '9'
  }

  /** `YYYY-MM-DD`. */
  ghost predicate DayText(s: string) {
    exists y, m, d :: Number(y, 4) && Number(m, 2) && Number(d, 2) && s == y + "-" + m + "-" + d
  }

  /** `HH:MM:SS`. */
  ghost predicate ClockText(s: string) {
    exists h, m, t :: Number(h, 2) && Number(m, 2) && Number(t, 2) && s == h + ":" + m + ":" + t
  }

  /** A day, or a day and a time of UTC, that the calendar knows. */
  ghost predicate WellWritten(cal: Calendar, s: string) {
    ParseStamp(cal, s).Some?
    && (DayText(Strip(s)) || exists day, clock :: DayText(day) && ClockText(clock) && s == day + "T" + clock + "Z")
  }

  lemma DayMeans(s: string)
    ensures |s| == 10 && DayShape(s) <==> DayText(s)
  {
    if |s| == 10 && DayShape(s) {
      assert s == s[..4] + "-" + s[5..7] + "-" + s[8..];
      assert Number(s[..4], 4) && Number(s[5..7], 2) && Number(s[8..], 2);
    }
    if y, m, d :| Number(y, 4) && Number(m, 2) && Number(d, 2) && s == y + "-" + m + "-" + d {
      assert s[..4] == y && s[4] == '-' && s[5..7] == m && s[7] == '-' && s[8..] == d;
      DigitsOf(s, 0, y);
      DigitsOf(s, 5, m);
      DigitsOf(s, 8, d);
    }
  }

  lemma DigitsOf(s: string, from: nat, part: string)
    requires from + |part| <= |s| && s[from..from + |part|] == part && Number(part, |part|)
    ensures Digits(s, from, |part|)
  {
    forall i | from <= i < from + |part| ensures '0' <= s[i] <= '9' { assert part[i - from] == s[i]; }
  }

  predicate ClockShape(s: string) {
    |s| == 8 && Digits(s, 0, 2) && s[2] == ':' && Digits(s, 3, 2) && s[5] == ':' && Digits(s, 6, 2)
  }

  lemma ClockMeans(s: string)
    ensures ClockShape(s) <==> ClockText(s)
  {
    if ClockShape(s) {
      assert s == s[..2] + ":" + s[3..5] + ":" + s[6..];
      assert Number(s[..2], 2) && Number(s[3..5], 2) && Number(s[6..], 2);
    }
    if h, m, t :| Number(h, 2) && Number(m, 2) && Number(t, 2) && s == h + ":" + m + ":" + t {
      assert s[..2] == h && s[2] == ':' && s[3..5] == m && s[5] == ':' && s[6..] == t;
      DigitsOf(s, 0, h);
      DigitsOf(s, 3, m);
      DigitsOf(s, 6, t);
    }
  }

  lemma PartDigits(s: string, part: string, from: nat, at: nat, n: nat)
    requires at + n <= |part| && from + |part| <= |s| && s[from..from + |part|] == part
    ensures Digits(s, from + at, n) <==> Digits(part, at, n)
  {
    assert forall i | 0 <= i < |part| :: part[i] == s[from + i];
    if Digits(s, from + at, n) {
      forall i | at <= i < at + n ensures '0' <= part[i] <= '9' { assert part[i] == s[from + i]; }
    }
    if Digits(part, at, n) {
      forall i | from + at <= i < from + at + n ensures '0' <= s[i] <= '9' { assert part[i - from] == s[i]; }
    }
  }

  lemma InstantMeans(s: string)
    ensures (|s| == 20 && DayShape(s) && s[10] == 'T' && Digits(s, 11, 2) && s[13] == ':'
             && Digits(s, 14, 2) && s[16] == ':' && Digits(s, 17, 2) && s[19] == 'Z') <==>
      exists day, clock :: DayText(day) && ClockText(clock) && s == day + "T" + clock + "Z"
  {
    hide DayText, ClockText, Digits;
    if |s| == 20 && s[10] == 'T' && s[19] == 'Z' {
      var day, clock := s[..10], s[11..19];
      assert s == day + "T" + clock + "Z";
      InstantParts(s, day, clock);
      DayMeans(day);
      ClockMeans(clock);
    }
    if day, clock :| DayText(day) && ClockText(clock) && s == day + "T" + clock + "Z" {
      DayMeans(day);
      ClockMeans(clock);
      assert s[..10] == day && s[10] == 'T' && s[11..19] == clock && s[19] == 'Z';
      InstantParts(s, day, clock);
    }
  }

  lemma InstantParts(s: string, day: string, clock: string)
    requires |s| == 20 && s[..10] == day && s[11..19] == clock
    ensures DayShape(s) <==> DayShape(day)
    ensures Digits(s, 11, 2) && s[13] == ':' && Digits(s, 14, 2) && s[16] == ':' && Digits(s, 17, 2)
      <==> ClockShape(clock)
  {
    hide Digits;
    assert s[0..10] == day;
    PartDigits(s, day, 0, 0, 4);
    PartDigits(s, day, 0, 5, 2);
    PartDigits(s, day, 0, 8, 2);
    PartDigits(s, clock, 11, 0, 2);
    PartDigits(s, clock, 11, 3, 2);
    PartDigits(s, clock, 11, 6, 2);
    assert day[4] == s[4] && day[7] == s[7] && clock[2] == s[13] && clock[5] == s[16];
  }

  lemma ValidMeans(cal: Calendar, s: string)
    ensures ValidUntil(cal, s) <==> WellWritten(cal, s)
    ensures BareDate(s) <==> DayText(Strip(s))
  {
    hide DayShape, Digits, DayText, ClockText, Strip;
    DayMeans(Strip(s));
    InstantMeans(s);
  }

  /** What can be deferred: an open item for a reason, with a condition that can be tested, a deadline that is
      well written when it is given, and one that can be read when it is not. */
  ghost predicate Deferrable(cal: Calendar, r: Row, req: Request) {
    var stated := ParseCondition(Strip(req.reason));
    && r.status != "closed" && Strip(req.reason) != "" && !req.vetoed
    && (exists c: Condition :: Wanted(r, req, c) && CanBeTested(cal, c))
    && (req.until != "" ==> WellWritten(cal, req.until))
    && (req.until == "" && r.deferUntil != "" ==>
          if stated.Some? && stated.value.kind == "date" then
            BareDate(stated.value.arg) || ParseStamp(cal, cal.write(ParseStamp(cal, stated.value.arg).value)).Some?
          else ParseStamp(cal, r.deferUntil).Some?)
  }

  /** The deadline it leaves: `--until`; a stated date, in place of a deadline the item had; that deadline. */
  ghost predicate LeavesDeadline(cal: Calendar, r: Row, req: Request, r': Row) {
    var stated := ParseCondition(Strip(req.reason));
    && (req.until != "" ==> WellWritten(cal, req.until) && SameDeadline(cal, req.until, r'.deferUntil))
    && (req.until == "" && r.deferUntil != "" && stated.Some? && stated.value.kind == "date" ==>
          && ParseStamp(cal, stated.value.arg).Some?
          && SameDeadline(cal, if BareDate(stated.value.arg) then stated.value.arg
                               else cal.write(ParseStamp(cal, stated.value.arg).value), r'.deferUntil))
    && (req.until == "" && r.deferUntil != "" && (stated.None? || stated.value.kind != "date") ==>
          SameDeadline(cal, r.deferUntil, r'.deferUntil))
  }

  /** `defer` goes on with exactly these, and with the condition that is wanted. */
  lemma ChosenExactly(cal: Calendar, r: Row, req: Request)
    ensures Choose(cal, r, req).Some? <==> Deferrable(cal, r, req)
    ensures Choose(cal, r, req).Some? ==>
      Wanted(r, req, Choose(cal, r, req).value.active) && CanBeTested(cal, Choose(cal, r, req).value.active)
  {
    ValidMeans(cal, req.until);
    hide MarkerCount, ParseCondition, CanonicalReason, Render, Strip, BareDate, DayShape, Digits, WellWritten;
    var (date, _) := ChosenDate(cal, r, req);
    var active := ActiveCondition(r, req, date);
    assert forall c: Condition :: Wanted(r, req, c) ==> active == Some(c);
    if Choose(cal, r, req).Some? {
      assert Wanted(r, req, active.value) && CanBeTested(cal, active.value);
    }
    if Deferrable(cal, r, req) {
      var c: Condition :| Wanted(r, req, c) && CanBeTested(cal, c);
      assert date != "" ==> ParseStamp(cal, date).Some?;
    }
  }

  /** What a staged choice means, without saying how it was made. */
  lemma StagedMeans(cal: Calendar, r: Row, req: Request, r': Row)
    requires StagedFrom(cal, r, req, r')
    ensures LeavesCondition(cal, r, req, r') && LeavesDeadline(cal, r, req, r')
  {
    ValidMeans(cal, req.until);
    hide MarkerCount, ParseCondition, CanonicalReason, Render, Contains, Strip, BareDate, WellWritten;
    ChosenExactly(cal, r, req);
    var c := Choose(cal, r, req).value;
    assert OneCondition(NotesText(r'), c.active);
  }

  lemma HidingKeepsTheStage(cal: Calendar, c: Choice, blocker: string, r: Row, r': Row)
    requires Staged(cal, c, r) && Partial(r, HideFields(blocker), r')
    ensures Staged(cal, c, r')
    ensures r'.status == r.status || r'.status == "deferred"
    ensures r'.assignee == r.assignee && r'.openBlockers == r.openBlockers
  {
  }

  /** One write, then one read for evidence: never a retry.
      None: confirmed. */
  method WriteVerified(w: World, u: Fields, cal: Calendar, c: Choice, blocker: string, final: bool)
      returns (failure: Option<DeferOutcome>)
    requires w.Valid()
    modifies w
    ensures w.Valid() && old(w.past) + [w.row] == w.past && Partial(old(w.row), u, w.row)
    ensures exists raised: bool, got: Option<Row> :: w.trace == old(w.trace) + [Wrote(u, raised), Read(got)]
    ensures failure.None? ==>
      Staged(cal, c, w.row) && (final ==> Hidden(c, blocker, w.row)) && w.trace[|w.trace| - 1] == Read(Some(w.row))
    ensures failure.Some? ==> failure.value.DeferUnconfirmed? || failure.value.DeferLost?
    ensures failure == Some(DeferLost) ==> !(Staged(cal, c, w.row) && (final ==> Hidden(c, blocker, w.row)))
  {
    hide Staged, Partial;
    ghost var t0 := w.trace;
    var raised := w.Update(u);
    var got := w.Get();
    assert w.trace == t0 + [Wrote(u, raised), Read(got)];
    if got.None? || raised { return Some(DeferUnconfirmed); }
    if !Staged(cal, c, got.value) || (final && !Hidden(c, blocker, got.value)) { return Some(DeferLost); }
    return None;
  }

  /** `defer`. `inherited` is whether a gate's priority inheritance was confirmed, when one is due. */
  method DeferItem(w: World, cal: Calendar, req: Request, dryRun: bool, inherited: bool) returns (outcome: DeferOutcome)
    requires w.Valid()
    modifies w
    ensures w.Valid() && old(w.trace) <= w.trace && old(w.past) <= w.past && |w.past| <= |old(w.past)| + 2
    ensures forall i | |old(w.past)| <= i < |w.past| :: DeferStep(cal, old(w.row), req, w.past[i])
    ensures forall i | 0 < |old(w.past)| <= i < |w.past| && w.past[i].status == "deferred"
      && w.past[i - 1].status != "deferred" ::
      StagedFrom(cal, old(w.row), req, w.past[i - 1]) && StagedFrom(cal, old(w.row), req, w.past[i])
    ensures outcome.Deferred? || outcome.DeferNoop? ==>
      HiddenFrom(cal, old(w.row), req, w.row) && old(w.trace) < w.trace && w.trace[|w.trace| - 1] == Read(Some(w.row))
    ensures outcome.Deferred? || outcome.DeferNoop? ==>
      LeavesCondition(cal, old(w.row), req, w.row) && LeavesDeadline(cal, old(w.row), req, w.row)
    ensures outcome.DeferUnread? || outcome.DeferRefused? || outcome.DeferNoop? || outcome.DeferPreviewed? ==>
      w.past == old(w.past)
    ensures if outcome.DeferRefused? then !Deferrable(cal, old(w.row), req)
            else outcome.DeferUnread? || Deferrable(cal, old(w.row), req)
  {
    hide Choose, Staged, Partial, LeavesCondition, LeavesDeadline, Deferrable, Wanted, CanBeTested;
    var got := w.Get();
    if got.None? { return DeferUnread; }
    var choice := Choose(cal, got.value, req);
    ChosenExactly(cal, got.value, req);
    if choice.None? { return DeferRefused; }
    var c := choice.value;
    if Staged(cal, c, got.value) && Hidden(c, req.blocker, got.value) {
      StagedMeans(cal, got.value, req, got.value);
      return DeferNoop;
    }
    if dryRun { return DeferPreviewed; }
    if !inherited { return DeferUnconfirmed; }
    ghost var r0 := w.row;
    var failure := WriteVerified(w, StageFields(c), cal, c, req.blocker, false);
    StagingKeepsStatus(r0, c, w.row);
    ghost var r1 := w.row;
    if failure.Some? { return failure.value; }
    failure := WriteVerified(w, HideFields(req.blocker), cal, c, req.blocker, true);
    HidingKeepsTheStage(cal, c, req.blocker, r1, w.row);
    if failure.Some? { return failure.value; }
    StagedMeans(cal, r0, req, w.row);
    return Deferred;
  }

  lemma StagingKeepsStatus(r: Row, c: Choice, r': Row)
    requires Partial(r, StageFields(c), r')
    ensures r'.status == r.status && r'.assignee == r.assignee && r'.openBlockers == r.openBlockers
  {
  }

  // ---------- a tracker that does as it is told ----------

  lemma TestableKind(c: Condition)
    requires Testable(c)
    ensures Hits(Render(c)) == Hits(c.arg)
  {
    hide Hits, MarkerAt;
    var tail := ":" + c.arg;
    assert Render(c) == c.kind + tail;
    SkipNoR(":", c.arg);
    if c.kind == "release" {
      assert Render(c)[1..] == "elease" + tail;
      SkipNoR("elease", tail);
      ReleaseIsNoMarker(Render(c));
    } else {
      SkipNoR(c.kind, tail);
    }
  }

  lemma ReleaseIsNoMarker(s: string)
    requires |s| > 2 && s[0] == 'r' && s[1] == 'e' && s[2] == 'l'
    ensures Hits(s) == Hits(s[1..])
  {
    assert s[1..][1..] == s[2..] && Word("sume", s[2..]).None?;
    assert Word("resume", s) == Word("esume", s[1..]) == Word("sume", s[2..]);
    HitsStep(s);
  }

  /** A condition that is stated alone has no marker in it. */
  lemma AloneHasNoMarker(s: string, c: Condition)
    requires OneCondition(s, c) && Testable(c)
    ensures MarkerCount(Render(c)) == 0
  {
    hide Hits, MarkerCount, ParseCondition, Render;
    ParsedMarkers(s);
    CountIsHits(s);
    CountIsHits(Render(c));
    TestableKind(c);
  }

  /** When the tracker stores the whole first update, `defer` goes on to hide the item exactly when the stored date
      is the chosen one, the condition can be written and read back, and the notes merge kept one condition;
      otherwise it stops with the item still in sight. */
  lemma StoredStage(cal: Calendar, r: Row, req: Request, got: string)
    requires Choose(cal, r, req).Some? && Choose(cal, r, req).value.active.arg != ""
    ensures var c := Choose(cal, r, req).value;
      Staged(cal, c, r.(notes := Some(StoredNotes(r.notes, c.reason).0), deferUntil := got)) <==>
      (DateStored(cal, c.date, got) && Proper(c.active) && MarkerCount(Render(c.active)) == 0
       && MergeKeepsCondition(r.notes, c.reason))
  {
    hide MarkerCount, Render, CanonicalReason, MergeDeferralNotes, MergeKeepsCondition, StoredNotes, ParseCondition;
    hide Testable, Proper, Contains, Hits, DateStored;
    var c := Choose(cal, r, req).value;
    var text := if c.active.kind == "closed" then Strip(req.reason) + req.extra else Strip(req.reason);
    assert c.reason == CanonicalReason(text, Render(c.active));
    var stored := r.(notes := Some(StoredNotes(r.notes, c.reason).0), deferUntil := got);
    if Proper(c.active) {
      CanonicalTheorem(text, c.active);
      if OneCondition(text, c.active) { AloneHasNoMarker(text, c.active); }
      if MarkerCount(Render(c.active)) == 0 {
        StoredIsMerged(r.notes, c.reason, c.active);
        MergeTheorem(r.notes, c.reason, c.active);
      } else {
        CanonicalMarkers(text, c.active);
        CountIsHits(c.reason);
        CountIsHits(NotesText(stored));
        if Staged(cal, c, stored) { ContainedMarkers(NotesText(stored), c.reason); }
      }
    } else if Staged(cal, c, stored) {
      ParsedIsProper(NotesText(stored));
    }
  }
}

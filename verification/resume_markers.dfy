/**
 Resume markers in a deferral's notes: shantytown/deferral_notes.py and the two
 patterns of shantytown/deferrals.py they rest on, over ASCII text.

 The patterns are matched at one place by following them from left to right. No
 choice in them ever has to be taken back: after the optional separator only a `w`
 can follow, and a run of blanks or letters is never followed by one more of its kind.
 */
module ResumeMarkers {
  import opened Basics
  import opened TextStrip

  // ---------- characters ----------

  function Lower(c: char): char {
    if 'A' <= c <= 'Z' then (c as int + 32) as char else c
  }

  predicate StartsSep(s: string) {
    s != "" && (s[0] == ':' || s[0] == '=')
  }

  // ---------- the marker prefix: resume[_ -]?when\s*[:=] ----------

  /** The text after the word `w` (any case), if `s` starts with it. */
  function Word(w: string, s: string): (r: Option<string>)
    ensures r.Some? ==> |r.value| == |s| - |w|
  {
    if w == "" then Some(s)
    else if s != "" && Lower(s[0]) == w[0] then Word(w[1..], s[1..])
    else None
  }

  function SkipJoiner(s: string): (r: string)
    ensures |r| <= |s|
  {
    if s != "" && (s[0] == '_' || s[0] == ' ' || s[0] == '-') then s[1..] else s
  }

  /** The text after `resume when` and any blanks. */
  function Opening(s: string): (r: Option<string>)
    ensures r.Some? ==> |r.value| < |s|
  {
    match Word("resume", s)
    case None => None
    case Some(a) =>
      match Word("when", SkipJoiner(a))
      case None => None
      case Some(b) => Some(SkipSpace(b))
  }

  /** The text after a marker prefix that starts `s`. */
  function MarkerAt(s: string): (r: Option<string>)
    ensures r.Some? ==> |r.value| < |s|
  {
    match Opening(s)
    case None => None
    case Some(c) => if StartsSep(c) then Some(c[1..]) else None
  }

  /** How many markers a left-to-right, non-overlapping search finds. */
  function MarkerCount(s: string): nat
    decreases |s|
  {
    if s == "" then 0
    else
      match MarkerAt(s)
      case Some(rest) => 1 + MarkerCount(rest)
      case None => MarkerCount(s[1..])
  }

  const INERT := "historical resume condition:"

  /** `historical_notes`: every marker prefix made inert, the rest kept. */
  function Historical(s: string): string
    decreases |s|
  {
    if s == "" then ""
    else
      match MarkerAt(s)
      case Some(rest) => INERT + Historical(rest)
      case None => [s[0]] + Historical(s[1..])
  }

  // ---------- conditions ----------

  datatype Condition = Condition(kind: string, arg: string)

  function Render(c: Condition): string {
    c.kind + ":" + c.arg
  }

  predicate KindChar(c: char) {
    'a' <= Lower(c) <= 'z' || c == '-'
  }

  function KindRun(s: string): (n: nat)
    ensures n <= |s|
    ensures forall i | 0 <= i < n :: KindChar(s[i])
  {
    if s != "" && KindChar(s[0]) then 1 + KindRun(s[1..]) else 0
  }

  function ArgRun(s: string): (n: nat)
    ensures n <= |s|
  {
    if s != "" && !IsSpace(s[0]) then 1 + ArgRun(s[1..]) else 0
  }

  function LowerAll(s: string): string {
    if s == "" then "" else [Lower(s[0])] + LowerAll(s[1..])
  }

  predicate Trailer(c: char) {
    c == '.' || c == ',' || c == ';' || c == ')'
  }

  /** `rstrip(".,;)")`. */
  function Trim(s: string): string {
    if s != "" && Trailer(s[|s| - 1]) then Trim(s[..|s| - 1]) else s
  }

  /** After a marker prefix: the kind, and the text its argument starts. */
  function KindAt(s: string): Option<(string, string)> {
    var t := SkipSpace(s);
    var n := KindRun(t);
    var u := SkipSpace(t[n..]);
    if n == 0 || u == "" || u[0] != ':' then None
    else if SkipSpace(u[1..]) == "" then None
    else Some((t[..n], SkipSpace(u[1..])))
  }

  /** A whole condition that starts `s`. */
  function ConditionAt(s: string): Option<Condition> {
    match MarkerAt(s)
    case None => None
    case Some(rest) =>
      match KindAt(rest)
      case None => None
      case Some((kind, u)) => Some(Condition(LowerAll(kind), Trim(u[..ArgRun(u)])))
  }

  /** `parse_condition`: the first condition in the text. */
  function ParseCondition(s: string): Option<Condition> {
    if s == "" then None
    else if ConditionAt(s).Some? then ConditionAt(s)
    else ParseCondition(s[1..])
  }

  // ---------- notes ----------

  predicate Blank(s: string) {
    SkipSpace(s) == ""
  }

  predicate OccursAt(s: string, part: string, i: nat) {
    i + |part| <= |s| && s[i..i + |part|] == part
  }

  predicate Contains(s: string, part: string) {
    exists i | 0 <= i <= |s| :: OccursAt(s, part, i)
  }

  /** `canonical_reason`, for a condition already rendered. */
  function CanonicalReason(reason: string, condition: string): string {
    var marker := ParseCondition(reason);
    if MarkerCount(reason) == 1 && marker.Some? && Render(marker.value) == condition then reason
    else StripRight(Historical(reason)) + "\nresume_when: " + condition
  }

  /** `merge_deferral_notes`: the notes to write, and whether they replace others. */
  function MergeDeferralNotes(existing: Option<string>, addition: string): (string, bool) {
    var prior := if existing.None? then "" else existing.value;
    if Blank(prior) then (addition, false)
    else if Contains(prior, addition) && MarkerCount(prior) == 1 then (prior, false)
    else if Contains(addition, prior) && MarkerCount(addition) == 1 then (addition, true)
    else (Historical(prior) + "\n\n" + addition, true)
  }

  /** `merge_notes` of shantytown/br.py: plain prose is appended, a marker is merged. */
  function MergeNotes(existing: Option<string>, addition: string): (string, bool) {
    var prior := if existing.None? then "" else existing.value;
    if MarkerCount(addition) > 0 then MergeDeferralNotes(existing, addition)
    else if Blank(prior) then (addition, false)
    else if StripRight(SkipSpace(prior)) == StripRight(SkipSpace(addition)) then (addition, false)
    else if Contains(addition, prior) then (addition, true)
    else (prior + "\n\n" + addition, true)
  }

  /** `_merged_notes` on an item that could be read: never force a write that loses the old text. */
  function StoredNotes(existing: Option<string>, reason: string): (string, bool) {
    var (merged, force) := MergeNotes(existing, reason);
    if force && existing.Some? && existing.value != "" && !Contains(merged, existing.value)
       && !Contains(merged, Historical(existing.value)) then (reason, false)
    else (merged, force)
  }
}

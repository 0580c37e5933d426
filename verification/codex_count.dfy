/**
 `_count` of shantytown/codex_shells.py: a count of background terminals that is complete or nothing,
 over pages that a daemon hands out with cursors.
 */
module CodexCount {
  import opened Basics

  const PAGES: nat := 10
  const TERMINALS: nat := 1000
  const LONGEST_CURSOR: nat := 4096
  const LONGEST_ID: nat := 256

  /** What stands under `nextCursor`. */
  datatype Next = Absent | NoMore | Cursor(text: string) | NotText

  /** A terminal row; `shaped` is whether item, command and directory are there as text. */
  datatype Row = Row(shaped: bool, process: Option<string>)

  datatype Page = Page(rows: Option<seq<Row>>, next: Next)

  datatype Loaded = Loaded(threads: seq<string>, next: Next)

  datatype Request =
    | AskedLoaded(number: nat, loaded: Loaded)
    | AskedPage(number: nat, cursor: Option<string>, page: Page)

  /** The control socket: every request may fail, and a reply may be anything. */
  class Client {
    ghost var trace: seq<Request>

    constructor ()
      ensures trace == []
    {
      trace := [];
    }

    method AskLoaded(number: nat) returns (reply: Option<Loaded>)
      modifies this
      ensures trace == old(trace) + (if reply.Some? then [AskedLoaded(number, reply.value)] else [])
    {
      var answered: bool, l: Loaded := *, *;
      if !answered { return None; }
      trace := trace + [AskedLoaded(number, l)];
      return Some(l);
    }

    method AskPage(number: nat, cursor: Option<string>) returns (reply: Option<Page>)
      modifies this
      ensures trace == old(trace) + (if reply.Some? then [AskedPage(number, cursor, reply.value)] else [])
    {
      var answered: bool, p: Page := *, *;
      if !answered { return None; }
      trace := trace + [AskedPage(number, cursor, p)];
      return Some(p);
    }
  }

  /** Printable text, not padded, not too long; blanks and control characters of ASCII. */
  predicate GoodId(id: string) {
    0 < |id| <= LONGEST_ID && id[0] != ' ' && id[|id| - 1] != ' ' && forall c | c in id :: 32 <= c as int < 128
  }

  predicate GoodRow(r: Row) {
    r.shaped && r.process.Some? && GoodId(r.process.value)
  }

  function Ids(rows: seq<Row>): seq<string> {
    seq(|rows|, i requires 0 <= i < |rows| => if rows[i].process.Some? then rows[i].process.value else "")
  }

  predicate GoodPage(p: Page) {
    p.rows.Some? && forall r | r in p.rows.value :: GoodRow(r)
  }

  function PageIds(p: Page): seq<string> {
    if p.rows.Some? then Ids(p.rows.value) else []
  }

  /** All identifiers of these pages, in order. */
  function AllIds(pages: seq<Page>): seq<string> {
    if pages == [] then [] else AllIds(pages[..|pages| - 1]) + PageIds(pages[|pages| - 1])
  }

  /** This page gave that cursor. */
  predicate Gave(p: Page, cursor: Option<string>) {
    cursor.Some? && cursor.value != "" && p.next == Cursor(cursor.value)
  }

  /** The first page is asked for without a cursor, every other with the one the page before gave. */
  predicate Chained(pages: seq<Page>, cursors: seq<Option<string>>) {
    && |pages| == |cursors| && (cursors != [] ==> cursors[0] == None)
    && forall k | 0 < k < |cursors| :: GaveAt(pages, cursors, k)
  }

  predicate GaveAt(pages: seq<Page>, cursors: seq<Option<string>>, k: nat)
    requires 0 < k < |cursors| == |pages|
  {
    Gave(pages[k - 1], cursors[k])
  }

  /** The requests of a whole count, between two checks that this thread alone is loaded. */
  predicate Conversation(trace: seq<Request>, thread: string, pages: seq<Page>, cursors: seq<Option<string>>) {
    && |trace| == |pages| + 2 && |pages| == |cursors|
    && trace[0] == AskedLoaded(2, Loaded([thread], NoMore))
    && trace[|pages| + 1] == AskedLoaded(20, Loaded([thread], NoMore))
    && forall k | 0 <= k < |pages| :: trace[k + 1] == AskedPage(3 + k, cursors[k], pages[k])
  }

  /** `_loaded`. */
  method CheckLoaded(client: Client, number: nat, thread: string) returns (ok: bool)
    modifies client
    ensures ok ==> client.trace == old(client.trace) + [AskedLoaded(number, Loaded([thread], NoMore))]
  {
    var reply := client.AskLoaded(number);
    if reply.None? || reply.value.threads != [thread] || !reply.value.next.NoMore? { return false; }
    return true;
  }

  /** One page's rows: None when a row is malformed or its process has been seen. */
  method ReadRows(rows: seq<Row>, seen: set<string>) returns (more: Option<set<string>>)
    // item, command and directory as text, and an identifier of 1 to 256 printable characters, not padded
    ensures more.Some? ==> forall r | r in rows ::
      r.shaped && r.process.Some? && 1 <= |r.process.value| <= 256 && r.process.value[0] != ' '
      && r.process.value[|r.process.value| - 1] != ' ' && forall c | c in r.process.value :: 32 <= c as int <= 127
    ensures more.Some? <==> (forall r | r in rows :: GoodRow(r)) && NoRepeats(Ids(rows)) && Elements(Ids(rows)) !! seen
    ensures more.Some? ==> more.value == seen + Elements(Ids(rows))
  {
    var found := seen;
    for i := 0 to |rows|
      invariant forall r | r in rows[..i] :: GoodRow(r)
      invariant NoRepeats(Ids(rows[..i])) && Elements(Ids(rows[..i])) !! seen
      invariant found == seen + Elements(Ids(rows[..i]))
    {
      assert rows[..i + 1] == rows[..i] + [rows[i]] && rows[i] in rows;
      if !GoodRow(rows[i]) { return None; }
      assert Ids(rows[..i + 1]) == Ids(rows[..i]) + [rows[i].process.value];
      if rows[i].process.value in found {
        Seen(rows, i, seen);
        return None;
      }
      found := found + {rows[i].process.value};
    }
    assert rows[..|rows|] == rows;
    return Some(found);
  }

  lemma Seen(rows: seq<Row>, i: nat, seen: set<string>)
    requires i < |rows| && GoodRow(rows[i])
    requires rows[i].process.value in seen + Elements(Ids(rows[..i]))
    ensures (forall r | r in rows :: GoodRow(r)) ==> !(NoRepeats(Ids(rows)) && Elements(Ids(rows)) !! seen)
  {
    if forall r | r in rows :: GoodRow(r) {
      var id := rows[i].process.value;
      assert Ids(rows)[i] == id;
      if id !in seen {
        var k :| 0 <= k < i && Ids(rows[..i])[k] == id;
        assert Ids(rows)[k] == id;
      } else {
        assert id in Elements(Ids(rows));
      }
    }
  }

  /** `_count`, once the client has introduced itself: a number is the number of different processes on
      all pages there are, each page asked for with the cursor of the one before, none twice. */
  method Count(client: Client, thread: string)
      returns (count: Option<nat>, ghost pages: seq<Page>, ghost cursors: seq<Option<string>>)
    modifies client
    ensures count.Some? ==> old(client.trace) <= client.trace
    ensures count.Some? ==> Conversation(client.trace[|old(client.trace)|..], thread, pages, cursors)
    ensures count.Some? ==>
      0 < |pages| <= 10 && Chained(pages, cursors) && NoRepeats(cursors) && pages[|pages| - 1].next.NoMore?
    ensures count.Some? ==>
      (forall p | p in pages :: GoodPage(p)) && NoRepeats(AllIds(pages)) && count.value == |AllIds(pages)| < 1000
  {
    hide Asked, Conversation, GoodRow, Chained, UsedBy, Upcoming, FromLast, AllIds, NoRepeats, PageIds, Ids;
    pages, cursors := [], [];
    NothingAsked(thread);
    ghost var start := |client.trace|;
    var ok := CheckLoaded(client, 2, thread);
    if !ok { return None, pages, cursors; }
    assert client.trace[start..] == [AskedLoaded(2, Loaded([thread], NoMore))];
    var seen: set<string>, used: set<string>, cursor: Option<string> := {}, {}, None;
    for page := 0 to PAGES
      invariant old(client.trace) <= client.trace && Asked(client.trace[start..], thread, pages, cursors)
      invariant |pages| == page && Chained(pages, cursors) && NoRepeats(cursors) && UsedBy(used, cursors)
      invariant Upcoming(cursor, pages, cursors, used)
      invariant (forall p | p in pages :: GoodPage(p)) && NoRepeats(AllIds(pages))
      invariant seen == Elements(AllIds(pages)) && |AllIds(pages)| < TERMINALS
    {
      ghost var sofar := client.trace;
      var reply := client.AskPage(3 + page, cursor);
      if reply.None? { return None, pages, cursors; }
      if reply.value.rows.None? || reply.value.next.Absent? { return None, pages, cursors; }
      var more := ReadRows(reply.value.rows.value, seen);
      if more.None? { return None, pages, cursors; }
      if |more.value| >= TERMINALS { return None, pages, cursors; }
      MoreIds(pages, reply.value, seen, more.value);
      MoreAsked(sofar, start, thread, pages, cursors, page, cursor, reply.value);
      MoreChained(pages, cursors, used, cursor, reply.value);
      seen := more.value;
      pages, cursors := pages + [reply.value], cursors + [cursor];
      var next := reply.value.next;
      if next.NoMore? {
        ok := CheckLoaded(client, 20, thread);
        if !ok { return None, pages, cursors; }
        assert client.trace[start..]
          == (sofar + [AskedPage(3 + page, cursor, reply.value)])[start..]
             + [AskedLoaded(20, Loaded([thread], NoMore))];
        Finished((sofar + [AskedPage(3 + page, cursor, reply.value)])[start..], thread, pages, cursors);
        SetSize(AllIds(pages));
        return Some(|seen|), pages, cursors;
      }
      if !next.Cursor? || next.text == "" || next.text in used || |next.text| > LONGEST_CURSOR {
        return None, pages, cursors;
      }
      NewCursor(used, pages, cursors, next.text);
      used := used + {next.text};
      cursor := Some(next.text);
    }
    return None, pages, cursors;
  }

  lemma NothingAsked(thread: string)
    ensures Asked([AskedLoaded(2, Loaded([thread], NoMore))], thread, [], [])
    ensures Chained([], []) && NoRepeats<Option<string>>([]) && UsedBy({}, []) && Upcoming(None, [], [], {})
    ensures AllIds([]) == [] && NoRepeats<string>([])
  {
  }

  ghost predicate Asked(trace: seq<Request>, thread: string, pages: seq<Page>, cursors: seq<Option<string>>) {
    && |trace| == |pages| + 1 && |pages| == |cursors| && trace[0] == AskedLoaded(2, Loaded([thread], NoMore))
    && forall k | 0 <= k < |pages| :: trace[k + 1] == AskedPage(3 + k, cursors[k], pages[k])
  }

  /** The texts of the cursors asked with, and perhaps of the next one. */
  predicate UsedBy(used: set<string>, cursors: seq<Option<string>>) {
    forall c | c in cursors && c.Some? :: c.value in used
  }

  predicate FromLast(cursor: Option<string>, pages: seq<Page>) {
    pages != [] && Gave(pages[|pages| - 1], cursor)
  }

  /** The cursor to ask with: none at first, then the last page's, not asked with before. */
  predicate Upcoming(cursor: Option<string>, pages: seq<Page>, cursors: seq<Option<string>>, used: set<string>) {
    if pages == [] then cursor == None else FromLast(cursor, pages) && cursor !in cursors && cursor.value in used
  }

  lemma MoreIds(pages: seq<Page>, p: Page, seen: set<string>, more: set<string>)
    requires (forall x | x in pages :: GoodPage(x)) && NoRepeats(AllIds(pages)) && seen == Elements(AllIds(pages))
    requires GoodPage(p) && NoRepeats(Ids(p.rows.value)) && Elements(Ids(p.rows.value)) !! seen
    requires more == seen + Elements(Ids(p.rows.value)) && |more| < TERMINALS
    ensures (forall x | x in pages + [p] :: GoodPage(x)) && NoRepeats(AllIds(pages + [p]))
    ensures more == Elements(AllIds(pages + [p])) && |AllIds(pages + [p])| < TERMINALS
  {
    var a, b := AllIds(pages), PageIds(p);
    assert (pages + [p])[..|pages|] == pages;
    var all := AllIds(pages + [p]);
    assert all == a + b;
    forall i, j | 0 <= i < j < |all| ensures all[i] != all[j] {
      if i < |a| <= j { assert a[i] in seen && b[j - |a|] in Elements(b); }
    }
    assert Elements(all) == Elements(a) + Elements(b);
    SetSize(all);
  }

  lemma MoreAsked(trace: seq<Request>, start: nat, thread: string, pages: seq<Page>, cursors: seq<Option<string>>,
                  page: nat, cursor: Option<string>, p: Page)
    requires start <= |trace| && Asked(trace[start..], thread, pages, cursors) && page == |pages|
    ensures Asked((trace + [AskedPage(3 + page, cursor, p)])[start..], thread, pages + [p], cursors + [cursor])
  {
    assert (trace + [AskedPage(3 + page, cursor, p)])[start..] == trace[start..] + [AskedPage(3 + page, cursor, p)];
  }

  lemma Finished(trace: seq<Request>, thread: string, pages: seq<Page>, cursors: seq<Option<string>>)
    requires Asked(trace, thread, pages, cursors)
    ensures Conversation(trace + [AskedLoaded(20, Loaded([thread], NoMore))], thread, pages, cursors)
  {
    forall k | 0 <= k < |pages|
      ensures (trace + [AskedLoaded(20, Loaded([thread], NoMore))])[k + 1] == AskedPage(3 + k, cursors[k], pages[k]) {
      assert trace[k + 1] == AskedPage(3 + k, cursors[k], pages[k]);
    }
  }

  lemma MoreChained(pages: seq<Page>, cursors: seq<Option<string>>, used: set<string>, cursor: Option<string>, p: Page)
    requires Chained(pages, cursors) && NoRepeats(cursors) && UsedBy(used, cursors)
    requires Upcoming(cursor, pages, cursors, used)
    ensures Chained(pages + [p], cursors + [cursor]) && NoRepeats(cursors + [cursor])
    ensures UsedBy(used, cursors + [cursor])
  {
    forall k | 0 < k < |cursors + [cursor]| ensures GaveAt(pages + [p], cursors + [cursor], k) {
      assert k < |cursors| ==> GaveAt(pages, cursors, k);
    }
  }

  lemma NewCursor(used: set<string>, pages: seq<Page>, cursors: seq<Option<string>>, text: string)
    requires UsedBy(used, cursors) && text !in used && text != "" && pages != []
    requires pages[|pages| - 1].next == Cursor(text)
    ensures UsedBy(used + {text}, cursors) && Upcoming(Some(text), pages, cursors, used + {text})
  {
  }
}

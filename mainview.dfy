/**
 * The logic of the main window (MainFrame) without its Swing widgets: the
 * rows filterTable puts in the table, the four dashboard counters, the row
 * selection, and the add, update, delete and register actions. What the
 * widgets hold becomes fields (the search text, the status filter, the
 * table rows, the counters); a dialog becomes the text typed into it and the
 * answer given to a confirmation; LocalDate.now() is the parameter `today`.
 */
module MainView {
  import opened Wrappers
  import opened Text
  import opened Seqs
  import opened Dates
  import opened EventModel
  import opened DataStore

  // ================================================================ status

  /** The status column: before today, today, or later. */
  function StatusOf(date: Date, today: Date): (s: string)
    ensures s == "Completed" <==> IsBefore(date, today)
    ensures s == "Today" <==> date == today
    ensures s == "Upcoming" <==> !IsBefore(date, today) && date != today
  {
    Trichotomy(date, today);
    if IsBefore(date, today) then "Completed"
    else if date == today then "Today"
    else "Upcoming"
  }

  /** The three statuses differ in length, so ignoring case tells them apart. */
  lemma StatusIgnoringCase(s: string, filter: string)
    requires s == "Completed" || s == "Today" || s == "Upcoming"
    requires filter == "Completed" || filter == "Today" || filter == "Upcoming"
    ensures EqualsIgnoreCase(s, filter) <==> s == filter
  {
    assert |ToLower(s)| == |s| && |ToLower(filter)| == |filter|;
  }

  // ================================================================= table

  /** One table row: id, name, date as dd/MM/yyyy, venue, organizer, participant count, status. */
  datatype Row = Row(
    id: nat, name: string, date: string, venue: string, organizer: string, participants: nat, status: string)

  function RowOf(d: EventData, today: Date): Row {
    Row(d.id, d.name, Format(d.date), d.venue, d.organizer, |d.participants|, StatusOf(d.date, today))
  }

  /** One row per event, in list order: the table with no filtering at all. */
  function AllRows(ds: seq<EventData>, today: Date): (rows: seq<Row>)
    ensures |rows| == |ds|
    ensures forall k :: 0 <= k < |ds| ==> rows[k] == RowOf(ds[k], today)
  {
    seq(|ds|, k requires 0 <= k < |ds| => RowOf(ds[k], today))
  }

  lemma AllRowsSnoc(ds: seq<EventData>, today: Date)
    requires ds != []
    ensures AllRows(ds, today) == AllRows(ds[..|ds| - 1], today) + [RowOf(ds[|ds| - 1], today)]
  {
    var l, r := AllRows(ds, today), AllRows(ds[..|ds| - 1], today) + [RowOf(ds[|ds| - 1], today)];
    forall k | 0 <= k < |l| ensures l[k] == r[k] {
      if k < |ds| - 1 {
        assert ds[..|ds| - 1][k] == ds[k];
      }
    }
  }

  /** The search text as filterTable compares it: trimmed and lower-cased. */
  function Query(search: string): string {
    ToLower(Trim(search))
  }

  /** The status filter lets an event through: "All", or its status ignoring case. */
  predicate StatusMatches(filter: string, d: EventData, today: Date) {
    filter == "All" || EqualsIgnoreCase(StatusOf(d.date, today), filter)
  }

  /** The search lets an event through: no query, or the query inside its lower-cased name, venue or organizer. */
  predicate QueryMatches(q: string, d: EventData) {
    q == [] || Contains(ToLower(d.name), q) || Contains(ToLower(d.venue), q) || Contains(ToLower(d.organizer), q)
  }

  predicate Shown(d: EventData, search: string, filter: string, today: Date) {
    StatusMatches(filter, d, today) && QueryMatches(Query(search), d)
  }

  /** The rows filterTable leaves in the table, in list order. */
  function VisibleRows(ds: seq<EventData>, search: string, filter: string, today: Date): seq<Row> {
    if ds == [] then []
    else
      var init := VisibleRows(ds[..|ds| - 1], search, filter, today);
      var d := ds[|ds| - 1];
      if Shown(d, search, filter, today) then init + [RowOf(d, today)] else init
  }

  /** One more event adds its row at the end when both filters let it through. */
  lemma VisibleRowsSnoc(ds: seq<EventData>, d: EventData, search: string, filter: string, today: Date)
    ensures VisibleRows(ds + [d], search, filter, today)
         == VisibleRows(ds, search, filter, today) + (if Shown(d, search, filter, today) then [RowOf(d, today)] else [])
  {
    assert (ds + [d])[..|ds|] == ds;
  }

  /** The table keeps the order of the event list. */
  lemma {:induction false} VisibleRowsInOrder(ds: seq<EventData>, search: string, filter: string, today: Date)
    ensures IsSubsequence(VisibleRows(ds, search, filter, today), AllRows(ds, today))
  {
    if ds != [] {
      var init := ds[..|ds| - 1];
      VisibleRowsInOrder(init, search, filter, today);
      AllRowsSnoc(ds, today);
      SubsequenceSnoc(VisibleRows(init, search, filter, today), AllRows(init, today), RowOf(ds[|ds| - 1], today));
    }
  }

  /** Every row shown belongs to an event both filters let through. */
  lemma {:induction false} VisibleRowsSound(ds: seq<EventData>, search: string, filter: string, today: Date)
    ensures forall r :: r in VisibleRows(ds, search, filter, today) ==>
      exists k :: 0 <= k < |ds| && Shown(ds[k], search, filter, today) && r == RowOf(ds[k], today)
  {
    if ds != [] {
      var init := ds[..|ds| - 1];
      var prev := VisibleRows(init, search, filter, today);
      VisibleRowsSound(init, search, filter, today);
      forall r | r in VisibleRows(ds, search, filter, today)
        ensures exists k :: 0 <= k < |ds| && Shown(ds[k], search, filter, today) && r == RowOf(ds[k], today)
      {
        if r in prev {
          var k :| 0 <= k < |init| && Shown(init[k], search, filter, today) && r == RowOf(init[k], today);
          assert init[k] == ds[k];
        } else {
          assert r == RowOf(ds[|ds| - 1], today);
        }
      }
    }
  }

  /** Every event both filters let through has its row in the table. */
  lemma {:induction false} VisibleRowsComplete(ds: seq<EventData>, search: string, filter: string, today: Date)
    ensures forall k :: 0 <= k < |ds| && Shown(ds[k], search, filter, today) ==>
      RowOf(ds[k], today) in VisibleRows(ds, search, filter, today)
  {
    if ds != [] {
      var init := ds[..|ds| - 1];
      VisibleRowsComplete(init, search, filter, today);
      forall k | 0 <= k < |ds| && Shown(ds[k], search, filter, today)
        ensures RowOf(ds[k], today) in VisibleRows(ds, search, filter, today)
      {
        if k < |ds| - 1 {
          assert init[k] == ds[k];
        }
      }
    }
  }

  /** With an empty search and the filter on "All", every event has its row, in order. */
  lemma {:induction false} UnfilteredShowsAll(ds: seq<EventData>, search: string, today: Date)
    requires Trim(search) == []
    ensures VisibleRows(ds, search, "All", today) == AllRows(ds, today)
  {
    if ds != [] {
      UnfilteredShowsAll(ds[..|ds| - 1], search, today);
      AllRowsSnoc(ds, today);
      assert Query(search) == [];
    }
  }

  /** Under a status filter every row shown carries exactly that status. */
  lemma StatusFilterRows(ds: seq<EventData>, search: string, filter: string, today: Date)
    requires filter == "Upcoming" || filter == "Today" || filter == "Completed"
    ensures forall r :: r in VisibleRows(ds, search, filter, today) ==> r.status == filter
  {
    VisibleRowsSound(ds, search, filter, today);
    forall r | r in VisibleRows(ds, search, filter, today) ensures r.status == filter {
      var k :| 0 <= k < |ds| && Shown(ds[k], search, filter, today) && r == RowOf(ds[k], today);
      StatusIgnoringCase(StatusOf(ds[k].date, today), filter);
    }
  }

  // ============================================================= dashboard

  /** The participants label: the sum of the participant counts. */
  function TotalParticipants(ds: seq<EventData>): nat {
    if ds == [] then 0 else TotalParticipants(ds[..|ds| - 1]) + |ds[|ds| - 1].participants|
  }

  /** The upcoming label: events not before today (today's included). */
  function CountUpcoming(ds: seq<EventData>, today: Date): nat {
    if ds == [] then 0
    else CountUpcoming(ds[..|ds| - 1], today) + (if IsBefore(ds[|ds| - 1].date, today) then 0 else 1)
  }

  /**
   * The month label as written: events whose month-of-year is today's,
   * whatever the year. This is the behaviour recorded under Findings in the
   * README; the dashboard uses CountThisMonth instead.
   */
  function CountMonthAsWritten(ds: seq<EventData>, today: Date): nat {
    if ds == [] then 0
    else CountMonthAsWritten(ds[..|ds| - 1], today) + (if ds[|ds| - 1].date.month == today.month then 1 else 0)
  }

  /** The month label as intended: events in today's month of today's year. */
  function CountThisMonth(ds: seq<EventData>, today: Date): (c: nat)
    ensures c <= |ds|
    ensures c == 0 <==> forall k :: 0 <= k < |ds| ==> ds[k].date.month != today.month || ds[k].date.year != today.year
  {
    if ds == [] then 0
    else
      var d := ds[|ds| - 1].date;
      CountThisMonth(ds[..|ds| - 1], today) + (if d.month == today.month && d.year == today.year then 1 else 0)
  }

  /** The positions of the events in today's month of today's year. */
  function ThisMonthIndices(ds: seq<EventData>, today: Date): set<int> {
    set k | 0 <= k < |ds| && ds[k].date.month == today.month && ds[k].date.year == today.year
  }

  /** The positions of the events in today's month-of-year, in any year. */
  function MonthIndices(ds: seq<EventData>, today: Date): set<int> {
    set k | 0 <= k < |ds| && ds[k].date.month == today.month
  }

  /** The corrected label is the number of events in today's month of today's year. */
  lemma {:induction false} CountThisMonthIsSize(ds: seq<EventData>, today: Date)
    ensures CountThisMonth(ds, today) == |ThisMonthIndices(ds, today)|
  {
    if ds != [] {
      var n := |ds| - 1;
      var d := ds[n].date;
      CountThisMonthIsSize(ds[..n], today);
      var front := ThisMonthIndices(ds[..n], today);
      assert n !in front;
      if d.month == today.month && d.year == today.year {
        assert ThisMonthIndices(ds, today) == front + {n};
      } else {
        assert ThisMonthIndices(ds, today) == front;
      }
    }
  }

  /** The label as written is the number of events in today's month-of-year. */
  lemma {:induction false} CountMonthAsWrittenIsSize(ds: seq<EventData>, today: Date)
    ensures CountMonthAsWritten(ds, today) == |MonthIndices(ds, today)|
  {
    if ds != [] {
      var n := |ds| - 1;
      CountMonthAsWrittenIsSize(ds[..n], today);
      var front := MonthIndices(ds[..n], today);
      assert n !in front;
      if ds[n].date.month == today.month {
        assert MonthIndices(ds, today) == front + {n};
      } else {
        assert MonthIndices(ds, today) == front;
      }
    }
  }

  /** The four dashboard labels: events, participants, upcoming, this month. */
  datatype Stats = Stats(total: nat, participants: nat, upcoming: nat, thisMonth: nat)

  function Dashboard(ds: seq<EventData>, today: Date): Stats {
    Stats(|ds|, TotalParticipants(ds), CountUpcoming(ds, today), CountThisMonth(ds, today))
  }

  /**
   * The upcoming label counts the events the table lists under "Upcoming"
   * plus those it lists under "Today" when the search is empty.
   */
  lemma {:induction false} UpcomingMatchesTable(ds: seq<EventData>, today: Date)
    ensures CountUpcoming(ds, today) == |VisibleRows(ds, "", "Upcoming", today)| + |VisibleRows(ds, "", "Today", today)|
  {
    if ds != [] {
      UpcomingMatchesTable(ds[..|ds| - 1], today);
      UpcomingShownOnce(ds[|ds| - 1], today);
    }
  }

  /** With an empty search, an event not yet past shows under exactly one of "Upcoming" and "Today". */
  lemma UpcomingShownOnce(d: EventData, today: Date)
    ensures !IsBefore(d.date, today) <==> Shown(d, "", "Upcoming", today) || Shown(d, "", "Today", today)
    ensures !(Shown(d, "", "Upcoming", today) && Shown(d, "", "Today", today))
  {
    assert Query("") == [];
    var s := StatusOf(d.date, today);
    StatusIgnoringCase(s, "Upcoming");
    StatusIgnoringCase(s, "Today");
  }

  /** The upcoming label never exceeds the total. */
  lemma {:induction false} UpcomingAtMostTotal(ds: seq<EventData>, today: Date)
    ensures CountUpcoming(ds, today) <= |ds|
  {
    if ds != [] {
      UpcomingAtMostTotal(ds[..|ds| - 1], today);
    }
  }

  /** The intended month count never exceeds the month count as written. */
  lemma {:induction false} ThisMonthAtMostAsWritten(ds: seq<EventData>, today: Date)
    ensures CountThisMonth(ds, today) <= CountMonthAsWritten(ds, today)
  {
    if ds != [] {
      ThisMonthAtMostAsWritten(ds[..|ds| - 1], today);
    }
  }

  /** When every event lies in today's year the two month counts agree. */
  lemma {:induction false} MonthCountsAgreeWithinYear(ds: seq<EventData>, today: Date)
    requires forall k :: 0 <= k < |ds| ==> ds[k].date.year == today.year
    ensures CountThisMonth(ds, today) == CountMonthAsWritten(ds, today)
  {
    if ds != [] {
      var init := ds[..|ds| - 1];
      assert forall k :: 0 <= k < |init| ==> init[k] == ds[k];
      MonthCountsAgreeWithinYear(init, today);
    }
  }

  /**
   * The month label as written counts the two sample events of December
   * 2024 on a day of December 2026, though neither falls in that month.
   */
  lemma MonthCountAcrossYears()
    ensures CountMonthAsWritten(SampleData(1), Date(1, 12, 2026)) == 2
    ensures CountThisMonth(SampleData(1), Date(1, 12, 2026)) == 0
  {
    var ds := SampleData(1);
    assert ds[..1][..0] == [];
    assert ds[..|ds| - 1] == ds[..1];
  }

  /**
   * Adding one participant to one event, and changing no other count,
   * raises the participants label by one.
   */
  lemma {:induction false} TotalParticipantsBump(a: seq<EventData>, b: seq<EventData>, i: nat)
    requires |a| == |b| && i < |a|
    requires forall k :: 0 <= k < |a| && k != i ==> |b[k].participants| == |a[k].participants|
    requires |b[i].participants| == |a[i].participants| + 1
    ensures TotalParticipants(b) == TotalParticipants(a) + 1
  {
    var n := |a| - 1;
    if i == n {
      TotalParticipantsSameCounts(a[..n], b[..n]);
    } else {
      TotalParticipantsBump(a[..n], b[..n], i);
    }
  }

  lemma {:induction false} TotalParticipantsSameCounts(a: seq<EventData>, b: seq<EventData>)
    requires |a| == |b|
    requires forall k :: 0 <= k < |a| ==> |b[k].participants| == |a[k].participants|
    ensures TotalParticipants(b) == TotalParticipants(a)
  {
    if a != [] {
      var n := |a| - 1;
      TotalParticipantsSameCounts(a[..n], b[..n]);
    }
  }

  // ============================================================= selection

  /** The position of the first event with this id, or |es| when there is none (the stream's findFirst). */
  function FirstWithId(es: seq<Event>, id: nat): (k: nat)
    ensures k <= |es|
    ensures k < |es| ==> es[k].id == id
    ensures forall j :: 0 <= j < k ==> es[j].id != id
  {
    if es == [] then 0
    else if es[0].id == id then 0
    else 1 + FirstWithId(es[1..], id)
  }

  /** With strictly increasing ids an id names one event, which the search finds. */
  lemma FirstWithIdUnique(es: seq<Event>, k: nat)
    requires StrictlyIncreasing(Ids(es)) && k < |es|
    ensures FirstWithId(es, es[k].id) == k
  {
  }

  // ================================================================= forms

  datatype FormError = MissingField | InvalidDate

  /** What the add and update dialogs accept: four trimmed, non-empty fields and a parsed date. */
  datatype EventForm = EventForm(name: string, date: Date, venue: string, organizer: string)

  /**
   * The checks of the add and update dialogs: every trimmed field must be
   * non-empty, then the trimmed date must parse as dd/MM/yyyy.
   */
  function ReadForm(name: string, date: string, venue: string, organizer: string): (r: Result<EventForm, FormError>)
    ensures r == Err(MissingField) <==> Trim(name) == [] || Trim(date) == [] || Trim(venue) == [] || Trim(organizer) == []
    ensures r == Err(InvalidDate) <==>
      Trim(name) != [] && Trim(date) != [] && Trim(venue) != [] && Trim(organizer) != [] && Parse(Trim(date)).None?
    ensures r.Ok? ==>
      && r.value == EventForm(Trim(name), Parse(Trim(date)).value, Trim(venue), Trim(organizer))
      && r.value.name != [] && r.value.venue != [] && r.value.organizer != [] && IsValid(r.value.date)
  {
    var n, ds, v, o := Trim(name), Trim(date), Trim(venue), Trim(organizer);
    if n == [] || ds == [] || v == [] || o == [] then Err(MissingField)
    else
      match Parse(ds)
      case None => Err(InvalidDate)
      case Some(dt) => Ok(EventForm(n, dt, v, o))
  }

  /** A date as the update dialog pre-fills it has no surrounding blanks. */
  lemma FormattedIsTrimmed(d: Date)
    ensures IsTrimmed(Format(d)) && Format(d) != []
  {
    FormatCharacters(d);
    assert Format(d)[0] == PadDigits(d.day, 2)[0];
  }

  /**
   * Confirming the update dialog as it opens (the event's own name, date,
   * venue and organizer) gives back the same four values.
   */
  lemma UnchangedDialogKeepsEvent(d: EventData)
    requires d.name != [] && d.venue != [] && d.organizer != []
    requires IsTrimmed(d.name) && IsTrimmed(d.venue) && IsTrimmed(d.organizer)
    requires IsValid(d.date)
    ensures ReadForm(d.name, Format(d.date), d.venue, d.organizer) == Ok(EventForm(d.name, d.date, d.venue, d.organizer))
  {
    FormattedIsTrimmed(d.date);
    ParseFormat(d.date);
  }

  /** The update dialog's four setters applied to a value. */
  function Edited(d: EventData, f: EventForm): EventData {
    d.(name := f.name, date := f.date, venue := f.venue, organizer := f.organizer)
  }

  /** The type box of the register dialog. */
  datatype Kind = Student | Staff

  function KindLabel(kind: Kind): string {
    match kind
    case Student => "Student"
    case Staff => "Staff"
  }

  /** The participant entry the register dialog adds: the trimmed name, " - ", then the type. */
  function ParticipantEntry(name: string, kind: Kind): string {
    Trim(name) + " - " + KindLabel(kind)
  }

  /** How an action ended: carried out, refused by a check, declined at a confirmation, or no row selected. */
  datatype Outcome = Done | Rejected(error: FormError) | Cancelled | NoSelection

  /**
   * The loop of filterTable over the events getAllEvents returned: the
   * search text trimmed and lower-cased once, then one row for each event
   * both filters let through.
   */
  method FilteredRows(all: array<Event>, search: string, status: string, today: Date) returns (table: seq<Row>)
    ensures table == VisibleRows(DataOf(all[..]), search, status, today)
  {
    var q := Query(search);
    table := [];
    var i := 0;
    while i < all.Length
      invariant 0 <= i <= all.Length
      invariant table == VisibleRows(DataOf(all[..i]), search, status, today)
    {
      var event := all[i].Data();
      var statusOk := StatusMatches(status, event, today);
      var qOk := QueryMatches(q, event);
      DataOfPrefix(all[..], i);
      assert all[..][..i + 1] == all[..i + 1] && all[..][..i] == all[..i];
      VisibleRowsSnoc(DataOf(all[..i]), event, search, status, today);
      if statusOk && qOk {
        table := table + [RowOf(event, today)];
      }
      i := i + 1;
    }
    assert all[..i] == all[..];
  }

  /** An event numbered by the counter keeps the stored ids ordered when appended. */
  lemma AppendKeepsOrdered(es: seq<Event>, e: Event, next: nat)
    requires StrictlyIncreasing(Ids(es)) && forall k :: 0 <= k < |es| ==> es[k].id < next
    requires e.id == next
    ensures StrictlyIncreasing(Ids(es + [e]))
    ensures forall k :: 0 <= k < |es + [e]| ==> (es + [e])[k].id < next + 1
  {
    assert Ids(es + [e]) == Ids(es) + [next];
  }

  /** Removing an event keeps every remaining id below the counter. */
  lemma RemoveKeepsBelow(es: seq<Event>, e: Event, next: nat)
    requires forall k :: 0 <= k < |es| ==> es[k].id < next
    ensures forall k :: 0 <= k < |RemoveFirst(es, e)| ==> RemoveFirst(es, e)[k].id < next
  {
    if e in es {
      var i := IndexOf(es, e);
      var r := RemoveFirst(es, e);
      RemoveFirstSplit(es, e);
      forall k | 0 <= k < |r| ensures r[k].id < next {
        if k < i {
          assert r[k] == es[k];
        } else {
          assert r[k] == es[k + 1];
        }
      }
    }
  }

  // ================================================================ window

  class MainFrame {
    /** The store behind DataManager.getInstance(). */
    const store: DataManager
    /** The text of the search field. */
    var search: string
    /** The item chosen in the status filter box. */
    var statusFilter: string
    /** The rows of the table model. */
    var rows: seq<Row>
    /** The four dashboard labels. */
    var stats: Stats

    /** The table and the labels show the store as it is now. */
    predicate Refreshed(today: Date)
      reads this, store, store.events
    {
      && rows == VisibleRows(DataOf(store.events), search, statusFilter, today)
      && stats == Dashboard(DataOf(store.events), today)
    }

    /** The window opens with an empty search, the filter on "All", and a refreshed table and dashboard. */
    constructor (store: DataManager, today: Date)
      ensures this.store == store && search == "" && statusFilter == "All"
      ensures Refreshed(today)
      ensures rows == AllRows(DataOf(store.events), today)
    {
      this.store := store;
      search := "";
      statusFilter := "All";
      rows := [];
      stats := Stats(0, 0, 0, 0);
      new;
      RefreshStatsAndTable(today);
      UnfilteredShowsAll(DataOf(store.events), "", today);
    }

    /** refreshStatsAndTable: recompute the four labels, then refill the table. */
    method RefreshStatsAndTable(today: Date)
      modifies this`rows, this`stats
      ensures Refreshed(today)
      ensures DataOf(store.events) == old(DataOf(store.events))
    {
      label Start:
      var all := store.GetAllEvents();
      stats := Dashboard(DataOf(all[..]), today);
      FilterTable(today);
      DataOfFrame@Start(store.events);
    }

    /** filterTable: the table refilled from the store's current events. */
    method FilterTable(today: Date)
      modifies this`rows
      ensures rows == VisibleRows(DataOf(store.events), search, statusFilter, today)
    {
      var all := store.GetAllEvents();
      var table := FilteredRows(all, search, statusFilter, today);
      ghost var shown := DataOf(store.events);
      rows := table;
      assert DataOf(store.events) == shown;
    }

    /** Typing in the search field refilters the table. */
    method SetSearch(text: string, today: Date)
      modifies this`search, this`rows
      ensures search == text
      ensures rows == VisibleRows(DataOf(store.events), text, statusFilter, today)
    {
      search := text;
      FilterTable(today);
    }

    /** Choosing an item of the status box refilters the table. */
    method SelectStatus(filter: string, today: Date)
      requires filter == "All" || filter == "Upcoming" || filter == "Today" || filter == "Completed"
      modifies this`statusFilter, this`rows
      ensures statusFilter == filter
      ensures rows == VisibleRows(DataOf(store.events), search, filter, today)
    {
      statusFilter := filter;
      FilterTable(today);
    }

    /**
     * getSelectedEvent: nothing when no row is selected (-1), otherwise the
     * first stored event whose id is the row's id, if any.
     */
    function SelectedEvent(row: int): (ev: Option<Event>)
      reads this, store
      requires -1 <= row < |rows|
      ensures row == -1 ==> ev.None?
      ensures row >= 0 ==> (ev.Some? <==> exists k :: 0 <= k < |store.events| && store.events[k].id == rows[row].id)
      ensures ev.Some? ==> ev.value in store.events && ev.value.id == rows[row].id
      ensures ev.Some? ==>
        exists k :: 0 <= k < |store.events| && ev.value == store.events[k] && forall j :: 0 <= j < k ==> store.events[j].id != rows[row].id
    {
      if row == -1 then None
      else
        var k := FirstWithId(store.events, rows[row].id);
        if k < |store.events| then Some(store.events[k]) else None
    }
  
    /**
     * The Save Event button of the add dialog: check the form, ask before
     * adding when an event with the same date and venue (ignoring case)
     * exists, then create the event with the next id, store it (which
     * rewrites both files) and refresh.
     */
    method AddEvent(today: Date, name: string, date: string, venue: string, organizer: string, confirm: bool)
      returns (outcome: Outcome)
      modifies this`rows, this`stats, store`events, store`eventsFile, store`usersFile, store.counter
      ensures var form := ReadForm(name, date, venue, organizer);
        outcome == (if form.Err? then Rejected(form.error)
                    else if old(store.ConflictingEvents(form.value.date, form.value.venue)) != [] && !confirm then Cancelled
                    else Done)
      ensures outcome != Done ==> unchanged(this, store, store.counter)
      ensures outcome == Done ==>
        var f := ReadForm(name, date, venue, organizer).value;
        && |store.events| == old(|store.events|) + 1
        && store.events[..old(|store.events|)] == old(store.events)
        && fresh(store.events[old(|store.events|)])
        && DataOf(store.events) == old(DataOf(store.events)) + [NewEventData(old(store.counter.next), f)]
        && store.counter.next == old(store.counter.next) + 1
        && store.Persisted()
        && Refreshed(today)
      ensures old(store.IdsOrdered()) ==> store.IdsOrdered()
    {
      var form := ReadForm(name, date, venue, organizer);
      if form.Err? {
        return Rejected(form.error);
      }
      var f := form.value;
      var conflicts := store.ConflictingEvents(f.date, f.venue);
      if conflicts != [] && !confirm {
        return Cancelled;
      }
      CommitAdd(today, f);
      outcome := Done;
    }

    /** What a confirmed add does: store the new event, then refresh. */
    method CommitAdd(today: Date, f: EventForm)
      modifies this`rows, this`stats, store`events, store`eventsFile, store`usersFile, store.counter
      ensures |store.events| == old(|store.events|) + 1
      ensures store.events[..old(|store.events|)] == old(store.events)
      ensures fresh(store.events[old(|store.events|)])
      ensures DataOf(store.events) == old(DataOf(store.events)) + [NewEventData(old(store.counter.next), f)]
      ensures store.counter.next == old(store.counter.next) + 1
      ensures store.Persisted()
      ensures Refreshed(today)
      ensures old(store.IdsOrdered()) ==> store.IdsOrdered()
    {
      StoreNewEvent(store, f);
      RefreshStatsAndTable(today);
    }

    /**
     * The Update Event button of the edit dialog: the selected event's four
     * fields are overwritten in place and the view refreshed; nothing is
     * written to the files.
     */
    method UpdateEvent(today: Date, row: int, name: string, date: string, venue: string, organizer: string)
      returns (outcome: Outcome)
      requires -1 <= row < |rows|
      modifies this`rows, this`stats, store.events
      ensures var sel, form := old(SelectedEvent(row)), ReadForm(name, date, venue, organizer);
        outcome == (if sel.None? then NoSelection else if form.Err? then Rejected(form.error) else Done)
      ensures outcome != Done ==> unchanged(this) && DataOf(store.events) == old(DataOf(store.events))
      ensures outcome == Done ==>
        var ev, f := old(SelectedEvent(row)).value, ReadForm(name, date, venue, organizer).value;
        && ev.Data() == Edited(old(ev.Data()), f)
        && DataOf(store.events) == Replaced(old(DataOf(store.events)), store.events, ev, ev.Data())
        && Refreshed(today)
    {
      var sel := SelectedEvent(row);
      if sel.None? {
        return NoSelection;
      }
      var form := ReadForm(name, date, venue, organizer);
      if form.Err? {
        return Rejected(form.error);
      }
      CommitEdit(today, sel.value, form.value);
      outcome := Done;
    }

    /** What an accepted update does: overwrite the four fields, then refresh. */
    method CommitEdit(today: Date, ev: Event, f: EventForm)
      requires ev in store.events
      modifies this`rows, this`stats, store.events
      ensures ev.Data() == Edited(old(ev.Data()), f)
      ensures DataOf(store.events) == Replaced(old(DataOf(store.events)), store.events, ev, ev.Data())
      ensures Refreshed(today)
    {
      ApplyEdit(store, ev, f);
      RefreshStatsAndTable(today);
    }

    /**
     * The Delete button: after a confirmation the selected event leaves the
     * store (which rewrites both files) and the view is refreshed.
     */
    method DeleteEvent(today: Date, row: int, confirm: bool) returns (outcome: Outcome)
      requires -1 <= row < |rows|
      modifies this`rows, this`stats, store`events, store`eventsFile, store`usersFile
      ensures var sel := old(SelectedEvent(row));
        outcome == (if sel.None? then NoSelection else if !confirm then Cancelled else Done)
      ensures outcome != Done ==> unchanged(this, store)
      ensures outcome == Done ==>
        && store.events == RemoveFirst(old(store.events), old(SelectedEvent(row)).value)
        && store.Persisted()
        && Refreshed(today)
    {
      var sel := SelectedEvent(row);
      if sel.None? {
        return NoSelection;
      }
      if !confirm {
        return Cancelled;
      }
      CommitDelete(today, sel.value);
      outcome := Done;
    }

    /** What a confirmed delete does: remove and save, then refresh. */
    method CommitDelete(today: Date, ev: Event)
      modifies this`rows, this`stats, store`events, store`eventsFile, store`usersFile
      ensures store.events == RemoveFirst(old(store.events), ev)
      ensures store.Persisted()
      ensures Refreshed(today)
    {
      RemoveStored(store, ev);
      RefreshStatsAndTable(today);
    }

    /**
     * The Register button of the participant dialog: the trimmed name, " - "
     * and the chosen type are appended to the selected event's participants
     * and the view refreshed; nothing is written to the files.
     */
    method RegisterParticipant(today: Date, row: int, name: string, kind: Kind) returns (outcome: Outcome)
      requires -1 <= row < |rows|
      modifies this`rows, this`stats, store.events
      ensures var sel := old(SelectedEvent(row));
        outcome == (if sel.None? then NoSelection else if Trim(name) == [] then Rejected(MissingField) else Done)
      ensures outcome != Done ==> unchanged(this) && DataOf(store.events) == old(DataOf(store.events))
      ensures outcome == Done ==>
        var ev := old(SelectedEvent(row)).value;
        && ev.Data() == old(ev.Data()).(participants := old(ev.participants) + [ParticipantEntry(name, kind)])
        && DataOf(store.events) == Replaced(old(DataOf(store.events)), store.events, ev, ev.Data())
        && Refreshed(today)
    {
      var sel := SelectedEvent(row);
      if sel.None? {
        return NoSelection;
      }
      var n := Trim(name);
      if n == [] {
        return Rejected(MissingField);
      }
      CommitRegister(today, sel.value, n + " - " + KindLabel(kind));
      outcome := Done;
    }

    /** What an accepted registration does: append the entry, then refresh. */
    method CommitRegister(today: Date, ev: Event, entry: string)
      requires ev in store.events
      modifies this`rows, this`stats, store.events
      ensures ev.Data() == old(ev.Data()).(participants := old(ev.participants) + [entry])
      ensures DataOf(store.events) == Replaced(old(DataOf(store.events)), store.events, ev, ev.Data())
      ensures Refreshed(today)
    {
      Register(store, ev, entry);
      RefreshStatsAndTable(today);
    }
  }

  /** The value a new event has: the next id, the form's fields, no participants. */
  function NewEventData(id: nat, f: EventForm): EventData {
    EventData(id, f.name, f.date, f.venue, f.organizer, [])
  }

  /** The values `ds` of the events `es` after every occurrence of `ev` took the value `d`. */
  function Replaced(ds: seq<EventData>, es: seq<Event>, ev: Event, d: EventData): (r: seq<EventData>)
    requires |ds| == |es|
    ensures |r| == |ds|
  {
    seq(|ds|, k requires 0 <= k < |ds| => if es[k] == ev then d else ds[k])
  }

  /** The store half of the add action: a new Event takes the next id and is appended and saved. */
  method StoreNewEvent(store: DataManager, f: EventForm)
    modifies store`events, store`eventsFile, store`usersFile, store.counter
    ensures |store.events| == old(|store.events|) + 1 && store.events[..old(|store.events|)] == old(store.events)
    ensures fresh(store.events[old(|store.events|)])
    ensures DataOf(store.events) == old(DataOf(store.events)) + [NewEventData(old(store.counter.next), f)]
    ensures store.counter.next == old(store.counter.next) + 1
    ensures store.Persisted()
    ensures old(store.IdsOrdered()) ==> store.IdsOrdered()
  {
    ghost var before := store.events;
    ghost var ordered := store.IdsOrdered();
    ghost var next := store.counter.next;
    label Before:
    var ev := new Event(store.counter, f.name, f.date, f.venue, f.organizer);
    store.AddEvent(ev);
    DataOfFrame@Before(before);
    DataOfSnoc(before, ev);
    if ordered {
      AppendKeepsOrdered(before, ev, next);
    }
  }

  /** The store half of the delete action. */
  method RemoveStored(store: DataManager, ev: Event)
    modifies store`events, store`eventsFile, store`usersFile
    ensures store.events == RemoveFirst(old(store.events), ev)
    ensures store.Persisted()
  {
    store.RemoveEvent(ev);
  }

  /** The four setters the update action calls, in its order; no other event changes. */
  method ApplyEdit(store: DataManager, ev: Event, f: EventForm)
    modifies ev`name, ev`date, ev`venue, ev`organizer
    ensures ev.Data() == Edited(old(ev.Data()), f)
    ensures DataOf(store.events) == Replaced(old(DataOf(store.events)), store.events, ev, ev.Data())
  {
    ghost var before := DataOf(store.events);
    ev.SetName(f.name);
    ev.SetDate(f.date);
    ev.SetVenue(f.venue);
    ev.SetOrganizer(f.organizer);
    ghost var after := DataOf(store.events);
    forall k | 0 <= k < |after| ensures after[k] == Replaced(before, store.events, ev, ev.Data())[k] {
    }
  }

  /** The participant half of the register action; no other event changes. */
  method Register(store: DataManager, ev: Event, entry: string)
    modifies ev`participants
    ensures ev.Data() == old(ev.Data()).(participants := old(ev.participants) + [entry])
    ensures DataOf(store.events) == Replaced(old(DataOf(store.events)), store.events, ev, ev.Data())
  {
    ghost var before := DataOf(store.events);
    ev.AddParticipant(entry);
    ghost var after := DataOf(store.events);
    forall k | 0 <= k < |after| ensures after[k] == Replaced(before, store.events, ev, ev.Data())[k] {
    }
  }

  /**
   * With distinct ids `ev` occurs once, so giving it one more participant
   * raises the sum of the participant counts by exactly one.
   */
  lemma OneMoreParticipant(es: seq<Event>, ev: Event, before: seq<EventData>, d: EventData)
    requires StrictlyIncreasing(Ids(es)) && ev in es && |before| == |es|
    requires |d.participants| == |before[IndexOf(es, ev)].participants| + 1
    ensures TotalParticipants(Replaced(before, es, ev, d)) == TotalParticipants(before) + 1
  {
    var i := IndexOf(es, ev);
    var after := Replaced(before, es, ev, d);
    forall k | 0 <= k < |es| && k != i
      ensures |after[k].participants| == |before[k].participants|
    {
      assert Ids(es)[k] != Ids(es)[i];
    }
    TotalParticipantsBump(before, after, i);
  }
}

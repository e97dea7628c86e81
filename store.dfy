/**
 * The record store (DataManager): the event and user lists the program
 * works on, the seeding of an empty store, the login check, the list
 * operations, and the write-through to the two data files. The files are
 * the fields `eventsFile` and `usersFile`, holding the text on disk.
 */
module DataStore {
  import opened Wrappers
  import opened Text
  import opened Seqs
  import opened Dates
  import opened EventModel
  import opened UserModel
  import opened Database
  import opened UsersFile
  import opened CsvExport
  import opened Backups

  // ======================================================== seeded records

  /** The two sample events addSampleEvents creates, numbered from `start`. */
  function SampleData(start: nat): (ds: seq<EventData>)
    ensures |ds| == 2 && ds[0].id == start && ds[1].id == start + 1
  {
    [EventData(start, "AI Workshop", Date(15, 12, 2024), "Room 101", "Dr. Smith",
               ["John Doe - Student", "Jane Smith - Staff"]),
     EventData(start + 1, "Cultural Show", Date(20, 12, 2024), "Main Hall", "Prof. Johnson",
               ["Alice Brown - Student"])]
  }

  /** The accounts the store adds when the users file held no usable line. */
  const SeedUsers: seq<User> := [User("admin", "admin123"), User("groupfive", "BIT1201")]

  /**
   * The seeded events survive the events file: a restart reads them back,
   * so the store is not seeded a second time.
   */
  lemma SampleReloads(start: nat)
    ensures DecodeEvents(EncodeEvents(SampleData(start))) == FieldsSeq(SampleData(start))
    ensures DecodeEvents(EncodeEvents(SampleData(start))) != []
  {
    var ds := SampleData(start);
    SampleStorable(start);
    EventsRoundTrip(ds);
  }

  lemma SampleStorable(start: nat)
    ensures forall k :: 0 <= k < 2 ==> Storable(SampleData(start)[k])
  {
    FirstSampleStorable(SampleData(start)[0]);
    SecondSampleStorable(SampleData(start)[1]);
  }

  lemma FirstSampleStorable(d: EventData)
    requires d.name == "AI Workshop" && d.date == Date(15, 12, 2024) && d.venue == "Room 101"
    requires d.organizer == "Dr. Smith" && d.participants == ["John Doe - Student", "Jane Smith - Staff"]
    ensures Storable(d)
  {
    SafeText("AI Workshop");
    SafeText("Room 101");
    SafeText("Dr. Smith");
    SafeText("John Doe - Student");
    SafeText("Jane Smith - Staff");
  }

  lemma SecondSampleStorable(d: EventData)
    requires d.name == "Cultural Show" && d.date == Date(20, 12, 2024) && d.venue == "Main Hall"
    requires d.organizer == "Prof. Johnson" && d.participants == ["Alice Brown - Student"]
    ensures Storable(d)
  {
    SafeText("Cultural Show");
    SafeText("Main Hall");
    SafeText("Prof. Johnson");
    SafeText("Alice Brown - Student");
  }

  /** Letters, digits, spaces, '.' and '-' are safe in any field and in the participant list. */
  lemma SafeText(s: string)
    requires s != [] && s[0] != ' ' && s[|s| - 1] != ' '
    requires forall k :: 0 <= k < |s| ==> s[k] == ' ' || s[k] == '.' || s[k] == '-' || 'a' <= s[k] <= 'z' || 'A' <= s[k] <= 'Z' || '0' <= s[k] <= '9'
    ensures FieldSafe(s) && ParticipantSafe(s)
  {
  }

  /** The seeded accounts survive the users file in the same way. */
  lemma SeedUsersReload()
    ensures LoadedUsers(EncodeUsers(SeedUsers)) == SeedUsers
  {
    assert UserSafe(SeedUsers[0]) && UserSafe(SeedUsers[1]);
    UsersRoundTrip(SeedUsers);
  }

  /**
   * addSampleEvents: two new events, each taking the next id, with their
   * participants, in this order.
   */
  method AddSampleEvents(counter: IdCounter) returns (es: seq<Event>)
    modifies counter
    ensures DataOf(es) == SampleData(old(counter.next))
    ensures counter.next == old(counter.next) + 2
    ensures |es| == 2 && es[0].id == old(counter.next) && es[1].id == old(counter.next) + 1
    ensures forall k :: 0 <= k < |es| ==> fresh(es[k])
  {
    ghost var sample := SampleData(counter.next);
    var e1 := new Event(counter, "AI Workshop", Date(15, 12, 2024), "Room 101", "Dr. Smith");
    e1.AddParticipant("John Doe - Student");
    e1.AddParticipant("Jane Smith - Staff");
    assert e1.Data() == sample[0];
    var e2 := new Event(counter, "Cultural Show", Date(20, 12, 2024), "Main Hall", "Prof. Johnson");
    e2.AddParticipant("Alice Brown - Student");
    assert e2.Data() == sample[1];
    es := [e1, e2];
    assert DataOf(es) == [e1.Data()] + DataOf([e2]);
  }

  /**
   * The events a store opened on `text` starts with, numbered from `start`:
   * the decoded ones, or the two sample events when none decode.
   */
  function StartEvents(text: string, start: nat): (ds: seq<EventData>)
    ensures ds != []
    ensures forall k :: 0 <= k < |ds| ==> ds[k].id == start + k
  {
    var fs := DecodeEvents(text);
    if fs != [] then Numbered(fs, start) else SampleData(start)
  }

  /**
   * The event half of the constructor: the events the file holds, or the
   * two sample events when it holds none. `seeded` tells which.
   */
  method LoadOrSeedEvents(counter: IdCounter, text: string) returns (es: seq<Event>, seeded: bool)
    modifies counter
    ensures seeded <==> DecodeEvents(text) == []
    ensures DataOf(es) == StartEvents(text, old(counter.next))
    ensures counter.next == old(counter.next) + |es|
    ensures forall k :: 0 <= k < |es| ==> fresh(es[k]) && es[k].id == old(counter.next) + k
  {
    es := LoadEvents(text, counter);
    seeded := |es| == 0;
    if seeded {
      es := AddSampleEvents(counter);
    }
    ConsecutiveIds(es, StartEvents(text, old(counter.next)), old(counter.next));
  }

  /** Events whose values are numbered from `start` carry the ids start, start + 1, ... */
  lemma ConsecutiveIds(es: seq<Event>, ds: seq<EventData>, start: nat)
    requires DataOf(es) == ds
    requires forall k :: 0 <= k < |ds| ==> ds[k].id == start + k
    ensures forall k :: 0 <= k < |es| ==> es[k].id == start + k
  {
    forall k | 0 <= k < |es| ensures es[k].id == start + k {
      assert ds[k] == es[k].Data();
    }
  }

  /** The users a store opened on `text` starts with: the loaded ones, or the seeded pair when none load. */
  function StartUsers(text: string): (us: seq<User>)
    ensures us != []
    ensures LoadedUsers(text) != [] ==> us == LoadedUsers(text)
  {
    var loaded := LoadedUsers(text);
    if loaded != [] then loaded else SeedUsers
  }

  /**
   * The user half of the constructor: the users the file holds, or admin
   * and groupfive when it holds no usable line. `seeded` tells which.
   */
  method LoadOrSeedUsers(text: string) returns (us: seq<User>, seeded: bool)
    ensures seeded <==> LoadedUsers(text) == []
    ensures us == StartUsers(text)
  {
    us := LoadUsers(text);
    seeded := |us| == 0;
    if seeded {
      us := us + [User("admin", "admin123")];
      us := us + [User("groupfive", "BIT1201")];
    }
  }

  /**
   * The private constructor on plain values: load both files, seed whichever
   * list came back empty, and rewrite both files when anything was seeded.
   */
  method Open(counter: IdCounter, eventsText: string, usersText: string)
    returns (es: seq<Event>, us: seq<User>, eventsFile: string, usersFile: string, seeded: bool)
    modifies counter
    ensures counter.next == old(counter.next) + |es|
    ensures DataOf(es) == StartEvents(eventsText, old(counter.next))
    ensures us == StartUsers(usersText)
    ensures forall k :: 0 <= k < |es| ==> fresh(es[k]) && es[k].id == old(counter.next) + k
    ensures seeded <==> DecodeEvents(eventsText) == [] || LoadedUsers(usersText) == []
    ensures seeded ==> eventsFile == EncodeEvents(DataOf(es)) && usersFile == EncodeUsers(us)
    ensures !seeded ==> eventsFile == eventsText && usersFile == usersText
  {
    var seededEvents, seededUsers;
    es, seededEvents := LoadOrSeedEvents(counter, eventsText);
    us, seededUsers := LoadOrSeedUsers(usersText);
    eventsFile, usersFile := eventsText, usersText;
    seeded := seededEvents || seededUsers;
    if seeded {
      eventsFile := SaveEvents(es);
      usersFile := SaveUsers(us);
    }
  }

  /** Ids handed out consecutively from `start` rise along the list and stay below the counter. */
  lemma ConsecutiveOrdered(es: seq<Event>, start: nat)
    requires forall k :: 0 <= k < |es| ==> es[k].id == start + k
    ensures StrictlyIncreasing(Ids(es))
    ensures forall k :: 0 <= k < |es| ==> es[k].id < start + |es|
  {
  }

  // ============================================================ login check

  /** Some user in `us` has exactly this name and password (case-sensitive). */
  function AnyMatch(us: seq<User>, username: string, password: string): (ok: bool)
    ensures ok <==> exists k :: 0 <= k < |us| && us[k].username == username && us[k].password == password
  {
    if us == [] then false
    else if us[0].username == username && us[0].password == password then true
    else
      var ok := AnyMatch(us[1..], username, password);
      assert ok ==> exists k :: 1 <= k < |us| && us[k].username == username && us[k].password == password by {
        if ok {
          var j :| 0 <= j < |us[1..]| && us[1..][j].username == username && us[1..][j].password == password;
          assert us[j + 1] == us[1..][j];
        }
      }
      ok
  }

  // ========================================================== ids and lists

  /** The ids of a list of events, in list order (ids are constant, so this reads nothing). */
  function Ids(es: seq<Event>): (ids: seq<nat>)
    ensures |ids| == |es|
    ensures forall k :: 0 <= k < |es| ==> ids[k] == es[k].id
  {
    seq(|es|, k requires 0 <= k < |es| => es[k].id)
  }

  predicate StrictlyIncreasing(xs: seq<nat>) {
    forall i, j :: 0 <= i < j < |xs| ==> xs[i] < xs[j]
  }

  /** Deleting one element keeps a strictly increasing sequence strictly increasing. */
  lemma DeleteKeepsIncreasing(xs: seq<nat>, i: nat)
    requires StrictlyIncreasing(xs) && i < |xs|
    ensures StrictlyIncreasing(xs[..i] + xs[i + 1..])
  {
    var r := xs[..i] + xs[i + 1..];
    forall a, b | 0 <= a < b < |r| ensures r[a] < r[b] {
      var a' := if a < i then a else a + 1;
      var b' := if b < i then b else b + 1;
      assert r[a] == xs[a'] && r[b] == xs[b'];
    }
  }

  /**
   * With increasing ids no event object appears twice, so removing the first
   * occurrence of an event removes the event from the list altogether.
   */
  lemma RemoveDeletes(es: seq<Event>, e: Event)
    requires StrictlyIncreasing(Ids(es))
    ensures e !in RemoveFirst(es, e)
    ensures StrictlyIncreasing(Ids(RemoveFirst(es, e)))
  {
    if e in es {
      var i := IndexOf(es, e);
      var r := RemoveFirst(es, e);
      RemoveFirstSplit(es, e);
      IdsDelete(es, i);
      DeleteKeepsIncreasing(Ids(es), i);
      forall j | 0 <= j < |r| ensures r[j] != e {
        var j' := if j < i then j else j + 1;
        assert r[j] == es[j'];
        assert Ids(es)[j'] != Ids(es)[i];
      }
    }
  }

  lemma IdsDelete(es: seq<Event>, i: nat)
    requires i < |es|
    ensures Ids(es[..i] + es[i + 1..]) == Ids(es)[..i] + Ids(es)[i + 1..]
  {
    var l, r := Ids(es[..i] + es[i + 1..]), Ids(es)[..i] + Ids(es)[i + 1..];
    forall k | 0 <= k < |l| ensures l[k] == r[k] {
      assert (es[..i] + es[i + 1..])[k] == if k < i then es[k] else es[k + 1];
    }
  }

  /** Events whose date equals `date` and whose venue equals `venue` ignoring case. */
  predicate Conflicts(e: Event, date: Date, venue: string)
    reads e
  {
    e.date == date && EqualsIgnoreCase(e.venue, venue)
  }

  /** The stream filter of getConflictingEvents, in the order of `es`. */
  function ConflictsIn(es: seq<Event>, date: Date, venue: string): seq<Event>
    reads es
  {
    if es == [] then []
    else if Conflicts(es[0], date, venue) then [es[0]] + ConflictsIn(es[1..], date, venue)
    else ConflictsIn(es[1..], date, venue)
  }

  /** The filter keeps the order of `es`. */
  lemma {:induction false} ConflictsInOrder(es: seq<Event>, date: Date, venue: string)
    ensures IsSubsequence(ConflictsIn(es, date, venue), es)
  {
    if es != [] {
      var rest := ConflictsIn(es[1..], date, venue);
      ConflictsInOrder(es[1..], date, venue);
      if Conflicts(es[0], date, venue) {
        assert ([es[0]] + rest)[1..] == rest;
      }
    }
  }

  /** Everything the filter keeps is a conflicting event of `es`. */
  lemma {:induction false} ConflictsInSound(es: seq<Event>, date: Date, venue: string)
    ensures forall e :: e in ConflictsIn(es, date, venue) ==> e in es && Conflicts(e, date, venue)
  {
    if es != [] {
      ConflictsInSound(es[1..], date, venue);
      forall e | e in ConflictsIn(es, date, venue) ensures e in es && Conflicts(e, date, venue) {
        if e != es[0] {
          assert e in ConflictsIn(es[1..], date, venue);
        }
      }
    }
  }

  /** Every conflicting event of `es` is kept. */
  lemma {:induction false} ConflictsInComplete(es: seq<Event>, date: Date, venue: string)
    ensures forall k :: 0 <= k < |es| && Conflicts(es[k], date, venue) ==> es[k] in ConflictsIn(es, date, venue)
  {
    if es != [] {
      ConflictsInComplete(es[1..], date, venue);
      forall k | 0 <= k < |es| && Conflicts(es[k], date, venue) ensures es[k] in ConflictsIn(es, date, venue) {
        if k > 0 {
          assert es[k] == es[1..][k - 1];
        }
      }
    }
  }

  /** A conflicting event is kept as often as it occurs in `es`, any other not at all. */
  lemma {:induction false} ConflictsInCount(es: seq<Event>, date: Date, venue: string, e: Event)
    ensures multiset(ConflictsIn(es, date, venue))[e] == if Conflicts(e, date, venue) then multiset(es)[e] else 0
  {
    if es != [] {
      var rest := ConflictsIn(es[1..], date, venue);
      ConflictsInCount(es[1..], date, venue, e);
      HeadTail(es);
      assert multiset(es) == multiset{es[0]} + multiset(es[1..]);
      if Conflicts(es[0], date, venue) {
        assert multiset([es[0]] + rest) == multiset{es[0]} + multiset(rest);
      }
    }
  }

  // ================================================================= store

  class DataManager {
    /** The id counter the store's event constructor calls advance. */
    const counter: IdCounter
    var events: seq<Event>
    var users: seq<User>
    /** The text of the events file and of the users file. */
    var eventsFile: string
    var usersFile: string

    /** The files hold exactly the encoding of the current lists. */
    predicate Persisted()
      reads this, events
    {
      SavedAs(DataOf(events))
    }

    /** The files hold the encoding of the events `ds` and of the current users. */
    predicate SavedAs(ds: seq<EventData>)
      reads this
    {
      eventsFile == EncodeEvents(ds) && usersFile == EncodeUsers(users)
    }

    /** Every stored id has been handed out by the counter, and ids rise along the list. */
    predicate IdsOrdered()
      reads this, counter
    {
      StrictlyIncreasing(Ids(events)) && forall k :: 0 <= k < |events| ==> events[k].id < counter.next
    }

    /**
     * Loads both files. An empty event list is replaced by the two sample
     * events and an empty user list by admin and groupfive; the files are
     * rewritten only when something was seeded, and then hold the final
     * lists.
     */
    constructor (counter: IdCounter, eventsText: string, usersText: string)
      modifies counter
      ensures this.counter == counter
      ensures counter.next == old(counter.next) + |events|
      ensures DataOf(events) == StartEvents(eventsText, old(counter.next))
      ensures users == StartUsers(usersText)
      ensures forall k :: 0 <= k < |events| ==> fresh(events[k])
      ensures IdsOrdered()
      ensures DecodeEvents(eventsText) == [] || LoadedUsers(usersText) == [] ==> Persisted()
      ensures DecodeEvents(eventsText) != [] && LoadedUsers(usersText) != [] ==>
                eventsFile == eventsText && usersFile == usersText
    {
      var es, us, ef, uf, seeded := Open(counter, eventsText, usersText);
      label Opened:
      this.counter := counter;
      events, users := es, us;
      eventsFile, usersFile := ef, uf;
      new;
      DataOfFrame@Opened(events);
      ConsecutiveOrdered(events, old(counter.next));
    }

    /** authenticate: true exactly when a stored user has this name and password. */
    function Authenticate(username: string, password: string): (ok: bool)
      reads this
      ensures ok <==> User(username, password) in users
    {
      AnyMatch(users, username, password)
    }

    /** addEvent: appends without any duplicate or conflict check, then rewrites both files. */
    method AddEvent(e: Event)
      modifies this`events, this`eventsFile, this`usersFile
      ensures events == old(events) + [e]
      ensures Persisted()
    {
      events := events + [e];
      SaveData();
    }

    /** removeEvent: drops the first occurrence of this very object, if any, then rewrites both files. */
    method RemoveEvent(e: Event)
      modifies this`events, this`eventsFile, this`usersFile
      ensures events == RemoveFirst(old(events), e)
      ensures Persisted()
    {
      events := RemoveFirst(events, e);
      SaveData();
    }

    /** getAllEvents: a new list with the same events in the same order. */
    method GetAllEvents() returns (copy: array<Event>)
      ensures fresh(copy)
      ensures copy[..] == events
    {
      copy := new Event[|events|](k requires 0 <= k < |events| reads this => events[k]);
    }

    /** getConflictingEvents, on the current list. */
    function ConflictingEvents(date: Date, venue: string): (r: seq<Event>)
      reads this, events
      ensures forall e :: e in r ==> e in events && Conflicts(e, date, venue)
      ensures forall k :: 0 <= k < |events| && Conflicts(events[k], date, venue) ==> events[k] in r
    {
      ConflictsInSound(events, date, venue);
      ConflictsInComplete(events, date, venue);
      ConflictsIn(events, date, venue)
    }

    /** saveData: rewrites both files from the current lists. */
    method SaveData()
      modifies this`eventsFile, this`usersFile
      ensures Persisted()
    {
      var eventsText := SaveEvents(events);
      var usersText := SaveUsers(users);
      eventsFile, usersFile := eventsText, usersText;
      DataOfFrame(events);
    }

    /** exportToCSV: the text written to the chosen file. */
    method ExportToCsv() returns (text: string)
      ensures text == CsvText(DataOf(events))
    {
      text := ExportCsv(events);
    }

    /**
     * createBackup: both data files copied line by line to the dated backup
     * paths of `today` (the files always exist once the store is open, so
     * both copies are made); the store itself is left as it was.
     */
    method CreateBackup(today: Date) returns (eventsPath: string, eventsCopy: string, usersPath: string, usersCopy: string)
      ensures (eventsPath, usersPath) == BackupPaths(today)
      ensures eventsCopy == CopyText(eventsFile) && usersCopy == CopyText(usersFile)
      ensures Persisted() && (forall k :: 0 <= k < |events| ==> Storable(events[k].Data())) ==> eventsCopy == eventsFile
      ensures Persisted() && (forall k :: 0 <= k < |users| ==> UserSafe(users[k])) ==> usersCopy == usersFile
    {
      var paths := BackupPaths(today);
      eventsPath, usersPath := paths.0, paths.1;
      eventsCopy := CopyText(eventsFile);
      usersCopy := CopyText(usersFile);
      if Persisted() && forall k :: 0 <= k < |events| ==> Storable(events[k].Data()) {
        EventsBackupIdentical(DataOf(events));
      }
      if Persisted() && forall k :: 0 <= k < |users| ==> UserSafe(users[k]) {
        UsersBackupIdentical(users);
      }
    }
  }
}

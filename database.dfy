/**
 * The flat-file layer (DatabaseManager): the line formats of the events and
 * users files, loading and saving whole files, CSV export, and the names of
 * the dated backup copies. File contents are strings; a missing file and an
 * empty one are both "".
 */
module Database {
  import opened Wrappers
  import opened Text
  import opened Dates
  import opened EventModel
  import opened UserModel
  import opened Seqs

  // ================================================================ events

  /** One line of the events file: id|name|dd/MM/yyyy|venue|organizer|p1,p2,... */
  function EncodeEvent(e: EventData): string {
    Join([NatToString(e.id), e.name, Format(e.date), e.venue, e.organizer, Join(e.participants, ',')], '|')
  }

  /** A text field that survives the events file: no field separator, no line terminator. */
  predicate FieldSafe(s: string) { '|' !in s && !HasLineBreak(s) }

  /** A participant that survives the participant sub-list unchanged. */
  predicate ParticipantSafe(p: string) { FieldSafe(p) && ',' !in p && p != "" && IsTrimmed(p) }

  /** An event whose line decodes back to the same fields. */
  predicate Storable(e: EventData) {
    && IsValid(e.date)
    && FieldSafe(e.name) && FieldSafe(e.venue) && FieldSafe(e.organizer)
    && forall k :: 0 <= k < |e.participants| ==> ParticipantSafe(e.participants[k])
  }

  lemma DigitsAvoid(s: string, c: char)
    requires AllDigits(s) && !IsDigit(c)
    ensures c !in s
  {
  }

  /**
   * Every line has exactly six '|'-separated fields (id, name, date, venue,
   * organizer, participants joined by ','), the last empty when there are no
   * participants, as long as no text field holds a '|'.
   */
  lemma {:induction false} EncodeEventFields(e: EventData)
    requires '|' !in e.name && '|' !in e.venue && '|' !in e.organizer
    requires NoneContains(e.participants, '|')
    ensures SplitAll(EncodeEvent(e), '|')
         == [NatToString(e.id), e.name, Format(e.date), e.venue, e.organizer, Join(e.participants, ',')]
    ensures e.participants == [] ==> Join(e.participants, ',') == ""
  {
    DigitsAvoid(NatToString(e.id), '|');
    FormatCharacters(e.date);
    JoinAvoids(e.participants, ',', '|');
    SplitJoin([NatToString(e.id), e.name, Format(e.date), e.venue, e.organizer, Join(e.participants, ',')], '|');
  }

  /** What a line restores: everything but the id, which the constructor assigns afresh. */
  datatype EventFields = EventFields(
    name: string, date: Date, venue: string, organizer: string, participants: seq<string>)

  function FieldsOf(e: EventData): EventFields {
    EventFields(e.name, e.date, e.venue, e.organizer, e.participants)
  }

  function WithId(f: EventFields, id: nat): EventData {
    EventData(id, f.name, f.date, f.venue, f.organizer, f.participants)
  }

  /** Decoded fields numbered by consecutive ids from `start`, as successive constructor calls number them. */
  function Numbered(fs: seq<EventFields>, start: nat): (ds: seq<EventData>)
    ensures |ds| == |fs|
    ensures forall k :: 0 <= k < |fs| ==> ds[k].id == start + k && FieldsOf(ds[k]) == fs[k]
  {
    seq(|fs|, k requires 0 <= k < |fs| => WithId(fs[k], start + k))
  }

  /** The participant pieces, trimmed, with the blank ones dropped. */
  function CleanParticipants(pieces: seq<string>): (r: seq<string>)
    ensures |r| <= |pieces|
    ensures forall k :: 0 <= k < |r| ==> r[k] != "" && IsTrimmed(r[k])
  {
    if pieces == [] then []
    else CleanParticipants(pieces[..|pieces| - 1]) + CleanPiece(pieces[|pieces| - 1])
  }

  /** One piece of the participants field: kept trimmed unless it is blank. */
  function CleanPiece(piece: string): (r: seq<string>)
    ensures |r| <= 1
    ensures forall k :: 0 <= k < |r| ==> r[k] != "" && IsTrimmed(r[k])
  {
    var p := Trim(piece);
    if p == "" then [] else [p]
  }

  lemma CleanParticipantsSnoc(pieces: seq<string>, j: nat)
    requires j < |pieces|
    ensures CleanParticipants(pieces[..j + 1])
         == CleanParticipants(pieces[..j]) + CleanPiece(pieces[j])
  {
    assert pieces[..j + 1][..j] == pieces[..j];
  }

  /** Every piece trimmed, blank ones included. */
  function TrimAll(pieces: seq<string>): (r: seq<string>)
    ensures |r| == |pieces|
    ensures forall k :: 0 <= k < |pieces| ==> r[k] == Trim(pieces[k])
  {
    Map(Trim, pieces)
  }

  /** The kept participants come in the order of their pieces. */
  lemma {:induction false} CleanParticipantsInOrder(pieces: seq<string>)
    ensures IsSubsequence(CleanParticipants(pieces), TrimAll(pieces))
  {
    if pieces != [] {
      var n := |pieces| - 1;
      var init := pieces[..n];
      CleanParticipantsInOrder(init);
      MapSnoc(Trim, pieces);
      SubsequenceSnoc(CleanParticipants(init), TrimAll(init), Trim(pieces[n]));
      if Trim(pieces[n]) == "" {
        assert CleanParticipants(pieces) == CleanParticipants(init);
      }
    }
  }

  /**
   * A participant is kept as often as some piece trims to it, unless it is
   * blank; so the kept participants are exactly the non-blank trimmed pieces.
   */
  lemma {:induction false} CleanParticipantsCount(pieces: seq<string>, p: string)
    ensures multiset(CleanParticipants(pieces))[p] == if p == "" then 0 else multiset(TrimAll(pieces))[p]
  {
    if pieces != [] {
      var n := |pieces| - 1;
      var init := pieces[..n];
      CleanParticipantsCount(init, p);
      MapSnoc(Trim, pieces);
      assert multiset(TrimAll(pieces)) == multiset(TrimAll(init)) + multiset{Trim(pieces[n])};
      assert multiset(CleanParticipants(pieces)) == multiset(CleanParticipants(init)) + multiset(CleanPiece(pieces[n]));
    }
  }

  /** Every kept participant is a non-blank trimmed piece. */
  lemma CleanParticipantsSound(pieces: seq<string>)
    ensures forall p :: p in CleanParticipants(pieces) ==> p != "" && p in TrimAll(pieces)
  {
    forall p | p in CleanParticipants(pieces) ensures p != "" && p in TrimAll(pieces) {
      CleanParticipantsCount(pieces, p);
    }
  }

  /** Every piece that is not blank is kept, trimmed. */
  lemma CleanParticipantsComplete(pieces: seq<string>)
    ensures forall k :: 0 <= k < |pieces| && Trim(pieces[k]) != "" ==> Trim(pieces[k]) in CleanParticipants(pieces)
  {
    forall k | 0 <= k < |pieces| && Trim(pieces[k]) != "" ensures Trim(pieces[k]) in CleanParticipants(pieces) {
      CleanParticipantsCount(pieces, Trim(pieces[k]));
      assert TrimAll(pieces)[k] == Trim(pieces[k]);
    }
  }

  /** Participants of a split line: only the sixth field counts, split on ',' as String.split does. */
  function ParticipantsField(parts: seq<string>): seq<string> {
    if |parts| > 5 && parts[5] != "" then CleanParticipants(Split(parts[5], ',')) else []
  }

  /**
   * One line of the events file. A line is skipped (None) exactly when it is
   * blank, has fewer than five '|'-fields, or its third field is not a
   * dd/MM/yyyy date. The first field (the stored id) is never looked at.
   */
  function DecodeEventLine(line: string): (r: Option<EventFields>)
    ensures var parts := SplitAll(line, '|');
      r.None? <==> IsBlank(line) || |parts| < 5 || Parse(parts[2]).None?
    ensures r.Some? ==> var parts := SplitAll(line, '|');
      && r.value.name == parts[1] && r.value.venue == parts[3] && r.value.organizer == parts[4]
      && Parse(parts[2]) == Some(r.value.date) && IsValid(r.value.date)
      && r.value.participants == ParticipantsField(parts)
  {
    if IsBlank(line) then None
    else
      var parts := SplitAll(line, '|');
      if |parts| < 5 then None
      else
        match Parse(parts[2])
        case None => None
        case Some(date) => Some(EventFields(parts[1], date, parts[3], parts[4], ParticipantsField(parts)))
  }

  /** Decoding goes line by line: a skipped line drops out and the rest carry on. */
  function DecodeLines(lines: seq<string>): seq<EventFields> {
    if lines == [] then []
    else
      var init := DecodeLines(lines[..|lines| - 1]);
      match DecodeEventLine(lines[|lines| - 1])
      case None => init
      case Some(f) => init + [f]
  }

  /** One more line adds its decoded fields at the end, or nothing when the line is skipped. */
  lemma DecodeLinesSnoc(lines: seq<string>, line: string)
    ensures DecodeLines(lines + [line]) == DecodeLines(lines) + OptionList(DecodeEventLine(line))
  {
    assert (lines + [line])[..|lines|] == lines;
  }

  function OptionList<T>(o: Option<T>): seq<T> {
    match o
    case None => []
    case Some(v) => [v]
  }

  function EventLines(es: seq<EventData>): (lines: seq<string>)
    ensures |lines| == |es|
    ensures forall k :: 0 <= k < |es| ==> lines[k] == EncodeEvent(es[k])
  {
    seq(|es|, k requires 0 <= k < |es| => EncodeEvent(es[k]))
  }

  /** The whole events file, one line per event in list order. */
  function EncodeEvents(es: seq<EventData>): string {
    WriteLines(EventLines(es))
  }

  /** loadEvents on the file's text (an empty file yields no events). */
  function DecodeEvents(text: string): seq<EventFields> {
    if text == "" then [] else DecodeLines(ReadLines(text))
  }

  lemma {:induction false} NotBlankWith(s: string, i: nat)
    requires i < |s| && !IsSpace(s[i])
    ensures !IsBlank(s)
  {
  }

  lemma {:induction false} JoinStart(parts: seq<string>, sep: char)
    requires parts != [] && parts[0] != []
    ensures Join(parts, sep) != [] && Join(parts, sep)[0] == parts[0][0]
  {
  }

  /** The participant field of a storable event is split back into the same participants. */
  lemma {:induction false} ParticipantsFieldOf(parts: seq<string>, ps: seq<string>)
    requires |parts| == 6 && parts[5] == Join(ps, ',')
    requires forall k :: 0 <= k < |ps| ==> ParticipantSafe(ps[k])
    ensures ParticipantsField(parts) == ps
  {
    if ps != [] {
      assert ps[0] != [];
      JoinStart(ps, ',');
      SplitJoinNonEmptyLast(ps, ',');
      CleanTrimmed(ps);
    }
  }

  /** A storable event's line decodes to the event's own fields. */
  lemma {:induction false} DecodeEncodeEvent(e: EventData)
    requires Storable(e)
    ensures DecodeEventLine(EncodeEvent(e)) == Some(FieldsOf(e))
  {
    var line := EncodeEvent(e);
    var parts := [NatToString(e.id), e.name, Format(e.date), e.venue, e.organizer, Join(e.participants, ',')];
    EncodeEventFields(e);
    JoinStart(parts, '|');
    NotBlankWith(line, 0);
    ParseFormat(e.date);
    ParticipantsFieldOf(parts, e.participants);
  }

  /** Participants that are already trimmed and non-blank pass through unchanged. */
  lemma {:induction false} CleanTrimmed(ps: seq<string>)
    requires forall k :: 0 <= k < |ps| ==> ps[k] != "" && IsTrimmed(ps[k])
    ensures CleanParticipants(ps) == ps
  {
    if ps != [] {
      var n := |ps| - 1;
      var init := ps[..n];
      assert forall k :: 0 <= k < |init| ==> init[k] == ps[k];
      CleanTrimmed(init);
      assert CleanPiece(ps[n]) == [ps[n]];
      InitLast(ps);
    }
  }

  /** The fields of each event, in order. */
  function FieldsSeq(es: seq<EventData>): (fs: seq<EventFields>)
    ensures |fs| == |es|
    ensures forall k :: 0 <= k < |es| ==> fs[k] == FieldsOf(es[k])
  {
    seq(|es|, k requires 0 <= k < |es| => FieldsOf(es[k]))
  }

  lemma {:induction false} DecodeEncodedLines(es: seq<EventData>)
    requires forall k :: 0 <= k < |es| ==> Storable(es[k])
    ensures DecodeLines(EventLines(es)) == FieldsSeq(es)
  {
    if es != [] {
      var front, last := es[..|es| - 1], es[|es| - 1];
      assert es == front + [last];
      DecodeEncodedLines(front);
      DecodeEncodeEvent(last);
      SnocLines(front, last);
      DecodeLinesSnoc(EventLines(front), EncodeEvent(last));
    }
  }

  lemma SnocLines(front: seq<EventData>, last: EventData)
    ensures EventLines(front + [last]) == EventLines(front) + [EncodeEvent(last)]
    ensures FieldsSeq(front + [last]) == FieldsSeq(front) + [FieldsOf(last)]
  {
  }

  /**
   * Round trip of the events file: saving storable events and loading the
   * file restores every name, date, venue, organizer and participant list,
   * in order. Ids are not restored: the loader numbers events afresh.
   */
  lemma EventsRoundTrip(es: seq<EventData>)
    requires forall k :: 0 <= k < |es| ==> Storable(es[k])
    ensures DecodeEvents(EncodeEvents(es)) == FieldsSeq(es)
  {
    var lines := EventLines(es);
    forall k | 0 <= k < |lines| ensures !HasLineBreak(lines[k]) {
      EncodeEventNoBreak(es[k]);
    }
    ReadWriteLines(lines);
    DecodeEncodedLines(es);
    if es == [] {
      assert DecodeEvents(EncodeEvents(es)) == [];
    } else {
      assert EncodeEvents(es) != "";
    }
  }

  lemma EncodeEventNoBreak(e: EventData)
    requires Storable(e)
    ensures !HasLineBreak(EncodeEvent(e))
  {
    var parts := [NatToString(e.id), e.name, Format(e.date), e.venue, e.organizer, Join(e.participants, ',')];
    JoinAvoids(e.participants, ',', '\n');
    JoinAvoids(e.participants, ',', '\r');
    FormatCharacters(e.date);
    JoinAvoids(parts, '|', '\n');
    JoinAvoids(parts, '|', '\r');
  }

  /**
   * The stored id and anything after the sixth field are ignored: two lines
   * that agree on fields 1 to 5 and on the sixth decode alike.
   */
  lemma DecodeIgnoresIdAndExtraFields(id1: string, id2: string, fields: seq<string>, extra: seq<string>)
    requires |fields| == 5
    requires '|' !in id1 && '|' !in id2
    requires NoneContains(fields, '|') && NoneContains(extra, '|')
    ensures DecodeEventLine(Join([id1] + fields + extra, '|')) == DecodeEventLine(Join([id2] + fields, '|'))
  {
    var p1, p2 := [id1] + fields + extra, [id2] + fields;
    assert forall k :: 1 <= k < 6 ==> p1[k] == fields[k - 1] == p2[k];
    SplitJoin(p1, '|');
    SplitJoin(p2, '|');
    SeparatorNotBlank(p1);
    SeparatorNotBlank(p2);
    if |extra| > 0 {
      assert p1[5] == fields[4];
    }
  }

  /** A line holding a '|' is never blank. */
  lemma {:induction false} SeparatorNotBlank(parts: seq<string>)
    requires |parts| >= 2
    ensures !IsBlank(Join(parts, '|'))
  {
    var s := Join(parts, '|');
    assert s == parts[0] + ['|'] + Join(parts[1..], '|');
    NotBlankWith(s, |parts[0]|);
  }

  /** Adds the participants of one stored line, as the inner loop of loadEvents does. */
  method AddParticipants(ev: Event, pieces: seq<string>)
    modifies ev`participants
    ensures ev.Data() == old(ev.Data()).(participants := old(ev.participants) + CleanParticipants(pieces))
  {
    var j := 0;
    while j < |pieces|
      invariant 0 <= j <= |pieces|
      invariant ev.participants == old(ev.participants) + CleanParticipants(pieces[..j])
    {
      ghost var added := CleanParticipants(pieces[..j]);
      AddPiece(ev, pieces[j]);
      CleanParticipantsSnoc(pieces, j);
      assert ev.participants == old(ev.participants) + CleanParticipants(pieces[..j + 1]) by {
        AppendAssoc(old(ev.participants), added, CleanPiece(pieces[j]));
      }
      j := j + 1;
    }
    assert pieces[..j] == pieces;
  }

  method AddPiece(ev: Event, piece: string)
    modifies ev`participants
    ensures ev.participants == old(ev.participants) + CleanPiece(piece)
  {
    var p := Trim(piece);
    if p != "" {
      ev.AddParticipant(p);
    }
  }

  lemma AppendAssoc<T>(a: seq<T>, b: seq<T>, c: seq<T>)
    ensures a + b + c == a + (b + c)
  {
  }

  /**
   * The body of loadEvents' loop for one line: a line that decodes becomes a
   * new Event (taking the next id), anything else leaves the counter alone.
   */
  method EventFromLine(line: string, counter: IdCounter) returns (ev: Option<Event>)
    modifies counter
    ensures DecodeEventLine(line).None? ==> ev.None? && counter.next == old(counter.next)
    ensures DecodeEventLine(line).Some? ==>
      && ev.Some? && fresh(ev.value)
      && ev.value.Data() == WithId(DecodeEventLine(line).value, old(counter.next))
      && counter.next == old(counter.next) + 1
  {
    ev := None;
    if !IsBlank(line) {
      var parts := SplitAll(line, '|');
      if |parts| >= 5 {
        var date := Parse(parts[2]);
        if date.Some? {
          var e := new Event(counter, parts[1], date.value, parts[3], parts[4]);
          if |parts| > 5 && parts[5] != "" {
            AddParticipants(e, Split(parts[5], ','));
          }
          ev := Some(e);
        }
      }
    }
  }

  /** Events whose values are the fields numbered from `start`, one by one. */
  /** One more decoded line is numbered by the next id. */
  lemma NumberedSnoc(fs: seq<EventFields>, f: EventFields, start: nat)
    ensures Numbered(fs + [f], start) == Numbered(fs, start) + [WithId(f, start + |fs|)]
  {
    var l, r := Numbered(fs + [f], start), Numbered(fs, start) + [WithId(f, start + |fs|)];
    forall k | 0 <= k < |l| ensures l[k] == r[k] {
      assert (fs + [f])[k] == if k < |fs| then fs[k] else f;
    }
  }

  /**
   * loadEvents: one new Event per line that decodes, in file order. Every
   * new Event takes the next id, so the loaded events are the decoded fields
   * numbered from the counter's value.
   */
  method LoadEvents(text: string, counter: IdCounter) returns (events: seq<Event>)
    modifies counter
    ensures DataOf(events) == Numbered(DecodeEvents(text), old(counter.next))
    ensures counter.next == old(counter.next) + |events|
    ensures forall k :: 0 <= k < |events| ==> fresh(events[k])
  {
    events := [];
    if |text| == 0 {
      return;
    }
    var lines := ReadLines(text);
    events := EventsFromLines(lines, counter);
  }

  /** loadEvents' loop over the lines read: one Event per line that decodes. */
  method EventsFromLines(lines: seq<string>, counter: IdCounter) returns (events: seq<Event>)
    modifies counter
    ensures DataOf(events) == Numbered(DecodeLines(lines), old(counter.next))
    ensures counter.next == old(counter.next) + |events|
    ensures forall k :: 0 <= k < |events| ==> fresh(events[k])
  {
    events := [];
    ghost var start := counter.next;
    var i := 0;
    while i < |lines|
      invariant 0 <= i <= |lines|
      invariant counter.next == start + |events|
      invariant forall k :: 0 <= k < |events| ==> fresh(events[k])
      invariant DataOf(events) == Numbered(DecodeLines(lines[..i]), start)
    {
      PrefixSnoc(lines, i);
      DecodeLinesSnoc(lines[..i], lines[i]);
      events := AppendFromLine(events, lines[i], counter, DecodeLines(lines[..i]), start);
      i := i + 1;
    }
    assert lines[..i] == lines;
  }

  /** One pass of loadEvents' loop: a line that decodes appends a new Event numbered by the counter. */
  method AppendFromLine(events: seq<Event>, line: string, counter: IdCounter, ghost fs: seq<EventFields>, ghost start: nat)
    returns (events': seq<Event>)
    requires DataOf(events) == Numbered(fs, start)
    requires counter.next == start + |events|
    modifies counter
    ensures DataOf(events') == Numbered(fs + OptionList(DecodeEventLine(line)), start)
    ensures counter.next == start + |events'|
    ensures |events'| >= |events| && events'[..|events|] == events
    ensures forall k :: |events| <= k < |events'| ==> fresh(events'[k])
  {
    ghost var loaded := DataOf(events);
    label Before:
    var ev := EventFromLine(line, counter);
    DataOfFrame@Before(events);
    if ev.Some? {
      var f := DecodeEventLine(line).value;
      assert ev.value.Data() == WithId(f, start + |fs|);
      DataOfSnoc(events, ev.value);
      NumberedSnoc(fs, f, start);
      events' := events + [ev.value];
      assert DataOf(events') == loaded + [WithId(f, start + |fs|)];
    } else {
      events' := events;
      assert fs + OptionList(DecodeEventLine(line)) == fs;
    }
  }

  /** One more event adds its line and a newline at the end of the file. */
  lemma EncodeEventsAppend(ds: seq<EventData>, d: EventData)
    ensures EncodeEvents(ds + [d]) == EncodeEvents(ds) + EncodeEvent(d) + "\n"
  {
    assert EventLines(ds + [d]) == EventLines(ds) + [EncodeEvent(d)];
    WriteLinesAppend(EventLines(ds), EncodeEvent(d));
  }

  /** saveEvents: the file text built line by line. */
  method SaveEvents(events: seq<Event>) returns (text: string)
    ensures text == EncodeEvents(DataOf(events))
  {
    text := "";
    var i := 0;
    while i < |events|
      invariant 0 <= i <= |events|
      invariant text == EncodeEvents(DataOf(events[..i]))
    {
      var line := EncodeEvent(events[i].Data());
      DataOfPrefix(events, i);
      EncodeEventsAppend(DataOf(events[..i]), events[i].Data());
      text := text + line + "\n";
      i := i + 1;
    }
    assert events[..i] == events;
  }
}

module UsersFile {
  import opened Text
  import opened Wrappers
  import opened UserModel

  /** One line of the users file: username|password. */
  function EncodeUser(u: User): string {
    u.username + "|" + u.password
  }

  /**
   * One line of the users file, read with String.split("\\|"), which drops
   * trailing empty pieces: kept only when exactly two pieces remain. So the
   * password is never empty, and the line is the encoded user followed by
   * nothing but '|' characters.
   */
  function DecodeUserLine(line: string): (r: Option<User>)
    ensures r.Some? <==> !IsBlank(line) && |Split(line, '|')| == 2
    ensures r.Some? ==> Split(line, '|') == [r.value.username, r.value.password]
    ensures r.Some? ==> && r.value.password != ""
                        && EncodeUser(r.value) <= line
                        && forall k :: |EncodeUser(r.value)| <= k < |line| ==> line[k] == '|'
  {
    if IsBlank(line) then None
    else
      var parts := Split(line, '|');
      if |parts| == 2 then
        SplitTwo(line);
        Some(User(parts[0], parts[1]))
      else None
  }

  /** Two pieces left by Split: the line is the two pieces joined, then only separators. */
  lemma SplitTwo(line: string)
    requires |Split(line, '|')| == 2
    ensures var parts := Split(line, '|');
      && parts[1] != ""
      && parts[0] + "|" + parts[1] <= line
      && forall k :: |parts[0] + "|" + parts[1]| <= k < |line| ==> line[k] == '|'
  {
    var all := SplitAll(line, '|');
    var parts := Split(line, '|');
    assert '|' in line;
    assert parts == all[..2];
    JoinEmptyTail(all, 2);
    assert Join(all[..2], '|') == parts[0] + "|" + parts[1];
  }

  /** Pieces that are all empty join to separators only. */
  lemma {:induction false} JoinEmpty(parts: seq<string>)
    requires forall k :: 0 <= k < |parts| ==> parts[k] == ""
    ensures |Join(parts, '|')| == (if parts == [] then 0 else |parts| - 1)
    ensures forall k :: 0 <= k < |Join(parts, '|')| ==> Join(parts, '|')[k] == '|'
  {
    if |parts| > 1 { JoinEmpty(parts[1..]); }
  }

  /** Empty trailing pieces add only separators after the join of the others. */
  lemma {:induction false} JoinEmptyTail(all: seq<string>, n: nat)
    requires 1 <= n <= |all|
    requires forall k :: n <= k < |all| ==> all[k] == ""
    ensures Join(all[..n], '|') <= Join(all, '|')
    ensures forall k :: |Join(all[..n], '|')| <= k < |Join(all, '|')| ==> Join(all, '|')[k] == '|'
  {
    if n == |all| {
      assert all[..n] == all;
    } else if n == 1 {
      JoinEmpty(all[1..]);
      assert all[..1] == [all[0]];
    } else {
      JoinEmptyTail(all[1..], n - 1);
      assert all[1..][..n - 1] == all[..n][1..];
    }
  }

  predicate UserSafe(u: User) {
    '|' !in u.username && '|' !in u.password && !HasLineBreak(u.username) && !HasLineBreak(u.password)
  }

  /** A user whose fields hold no '|' and whose password is not empty survives the round trip. */
  lemma DecodeEncodeUser(u: User)
    requires '|' !in u.username && '|' !in u.password && u.password != ""
    ensures DecodeUserLine(EncodeUser(u)) == Some(u)
  {
    var line := EncodeUser(u);
    assert line[|u.username|] == '|';
    assert line == Join([u.username, u.password], '|');
    SplitJoinNonEmptyLast([u.username, u.password], '|');
  }

  /** An empty password is lost: "name|" splits into one piece and the line is skipped. */
  lemma EmptyPasswordDropped(name: string)
    requires '|' !in name
    ensures DecodeUserLine(EncodeUser(User(name, ""))) == None
  {
    var line := EncodeUser(User(name, ""));
    assert line == Join([name, ""], '|');
    SplitJoin([name, ""], '|');
    assert line[|name|] == '|';
    assert Split(line, '|') == DropTrailingEmpty([name, ""]);
    assert |DropTrailingEmpty([name, ""])| <= 1;
  }

  function UserLines(us: seq<User>): (lines: seq<string>)
    ensures |lines| == |us|
    ensures forall k :: 0 <= k < |us| ==> lines[k] == EncodeUser(us[k])
  {
    seq(|us|, k requires 0 <= k < |us| => EncodeUser(us[k]))
  }

  /** The whole users file. */
  function EncodeUsers(us: seq<User>): string {
    WriteLines(UserLines(us))
  }

  /** The accounts loadUsers returns when the file is missing or empty. */
  const DefaultUsers: seq<User> := [User("admin", "admin123"), User("coordinator", "coord123")]

  function DecodeUserLines(lines: seq<string>): seq<User> {
    if lines == [] then []
    else
      var init := DecodeUserLines(lines[..|lines| - 1]);
      match DecodeUserLine(lines[|lines| - 1])
      case None => init
      case Some(u) => init + [u]
  }

  /** loadUsers on the file's text: the two defaults for an empty file, else the lines that decode. */
  function LoadedUsers(text: string): (us: seq<User>)
    ensures text == "" ==> us == DefaultUsers
  {
    if text == "" then DefaultUsers else DecodeUserLines(ReadLines(text))
  }

  lemma {:induction false} DecodeEncodedUserLines(us: seq<User>)
    requires forall k :: 0 <= k < |us| ==> UserSafe(us[k]) && us[k].password != ""
    ensures DecodeUserLines(UserLines(us)) == us
  {
    if us != [] {
      var n := |us| - 1;
      assert UserLines(us)[..n] == UserLines(us[..n]);
      DecodeEncodedUserLines(us[..n]);
      DecodeEncodeUser(us[n]);
      assert us[..n] + [us[n]] == us;
    }
  }

  /**
   * Round trip of the users file for a non-empty list of safe users. An empty
   * list is written as an empty file, which loads as the two defaults instead.
   */
  lemma UsersRoundTrip(us: seq<User>)
    requires forall k :: 0 <= k < |us| ==> UserSafe(us[k]) && us[k].password != ""
    ensures us != [] ==> LoadedUsers(EncodeUsers(us)) == us
    ensures us == [] ==> LoadedUsers(EncodeUsers(us)) == DefaultUsers
  {
    var lines := UserLines(us);
    forall k | 0 <= k < |lines| ensures !HasLineBreak(lines[k]) {
      assert lines[k] == Join([us[k].username, us[k].password], '|');
      JoinAvoids([us[k].username, us[k].password], '|', '\n');
      JoinAvoids([us[k].username, us[k].password], '|', '\r');
    }
    ReadWriteLines(lines);
    DecodeEncodedUserLines(us);
    if us != [] {
      assert EncodeUsers(us) != "";
    }
  }

  /** saveUsers: the file text built line by line. */
  method SaveUsers(users: seq<User>) returns (text: string)
    ensures text == EncodeUsers(users)
  {
    text := "";
    var i := 0;
    while i < |users|
      invariant 0 <= i <= |users|
      invariant text == EncodeUsers(users[..i])
    {
      var line := EncodeUser(users[i]);
      assert UserLines(users[..i + 1]) == UserLines(users[..i]) + [line];
      WriteLinesAppend(UserLines(users[..i]), line);
      text := text + line + "\n";
      i := i + 1;
    }
    assert users[..i] == users;
  }

  /** loadUsers: the defaults for an empty file, otherwise every line that decodes, in order. */
  method LoadUsers(text: string) returns (users: seq<User>)
    ensures users == LoadedUsers(text)
  {
    if |text| == 0 {
      users := [User("admin", "admin123"), User("coordinator", "coord123")];
      return;
    }
    users := [];
    var lines := ReadLines(text);
    var i := 0;
    while i < |lines|
      invariant 0 <= i <= |lines|
      invariant users == DecodeUserLines(lines[..i])
    {
      assert lines[..i + 1][..i] == lines[..i];
      var line := lines[i];
      if !IsBlank(line) {
        var parts := Split(line, '|');
        if |parts| == 2 {
          users := users + [User(parts[0], parts[1])];
        }
      }
      i := i + 1;
    }
    assert lines[..i] == lines;
  }
}

/** createBackup: the dated names of the two copies, and copyFile's line-by-line copy. */
module Backups {
  import opened Text
  import opened Dates
  import opened EventModel
  import opened UserModel
  import opened Database
  import opened UsersFile

  const BackupDir: string := "eventmanagement_data/backups"

  /** The events and users backup paths for a given day: events_<yyyyMMdd>.txt and users_<yyyyMMdd>.txt. */
  function BackupPaths(today: Date): (string, string) {
    (BackupDir + "/events_" + FormatCompact(today) + ".txt",
     BackupDir + "/users_" + FormatCompact(today) + ".txt")
  }

  /**
   * Two backups on the same day write to the same two files, so the second
   * overwrites the first; backups on different days never share a file.
   */
  lemma SameDaySameFiles(a: Date, b: Date)
    requires IsValid(a) && IsValid(b)
    ensures BackupPaths(a) == BackupPaths(b) <==> a == b
    ensures BackupPaths(a).0 == BackupPaths(b).0 <==> a == b
  {
    FormatCompactInjective(a, b);
    var pre := BackupDir + "/events_";
    var ea, eb := BackupPaths(a).0, BackupPaths(b).0;
    if ea == eb {
      assert ea == pre + FormatCompact(a) + ".txt";
      assert eb == pre + FormatCompact(b) + ".txt";
      assert |FormatCompact(a)| == |FormatCompact(b)|;
      assert FormatCompact(a) == ea[|pre|..|ea| - 4] == FormatCompact(b);
    }
  }

  /** copyFile: the source read line by line, each line written back followed by "\n". */
  function CopyText(source: string): string {
    WriteLines(ReadLines(source))
  }

  /** A file written line by line, with no terminator inside a line, is copied unchanged. */
  lemma CopyWritten(lines: seq<string>)
    requires forall k :: 0 <= k < |lines| ==> !HasLineBreak(lines[k])
    ensures CopyText(WriteLines(lines)) == WriteLines(lines)
  {
    ReadWriteLines(lines);
  }

  /** A line ended by "\n", "\r\n" or a lone "\r" is copied with "\n" as its end. */
  lemma CopyTerminatedLine(l: string, t: string, rest: string)
    requires !HasLineBreak(l)
    requires t == "\n" || t == "\r\n" || (t == "\r" && (rest == [] || rest[0] != '\n'))
    ensures CopyText(l + t + rest) == l + "\n" + CopyText(rest)
  {
    ReadLinesTerminated(l, t, rest);
    assert ([l] + ReadLines(rest))[1..] == ReadLines(rest);
  }

  /** A last line with no terminator is copied with "\n" added. */
  lemma CopyLastLine(l: string)
    requires l != [] && !HasLineBreak(l)
    ensures CopyText(l) == l + "\n"
  {
    ReadLastLine(l);
    assert [l][1..] == [];
    assert WriteLines([l]) == l + "\n" + WriteLines([]);
  }

  /** Other line ends are not kept: an example where the copy ends every line with "\n", the last one included. */
  lemma CopyNormalisesLineEnds()
    ensures CopyText("a\r\nb") == "a\nb\n"
  {
    assert "a\r\nb" == "a" + "\r\n" + "b";
    CopyTerminatedLine("a", "\r\n", "b");
    CopyLastLine("b");
    assert "a" + "\n" + ("b" + "\n") == "a\nb\n";
  }

  /** The backup of a saved events file is that file, when every event is storable. */
  lemma EventsBackupIdentical(ds: seq<EventData>)
    requires forall k :: 0 <= k < |ds| ==> Storable(ds[k])
    ensures CopyText(EncodeEvents(ds)) == EncodeEvents(ds)
  {
    var lines := EventLines(ds);
    forall k | 0 <= k < |lines| ensures !HasLineBreak(lines[k]) {
      EncodeEventNoBreak(ds[k]);
    }
    CopyWritten(lines);
  }

  /** The backup of a saved users file is that file, when every account is safe. */
  lemma UsersBackupIdentical(us: seq<User>)
    requires forall k :: 0 <= k < |us| ==> UserSafe(us[k])
    ensures CopyText(EncodeUsers(us)) == EncodeUsers(us)
  {
    var lines := UserLines(us);
    forall k | 0 <= k < |lines| ensures !HasLineBreak(lines[k]) {
      assert lines[k] == Join([us[k].username, us[k].password], '|');
      JoinAvoids([us[k].username, us[k].password], '|', '\n');
      JoinAvoids([us[k].username, us[k].password], '|', '\r');
    }
    CopyWritten(lines);
  }
}

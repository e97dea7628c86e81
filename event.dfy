/**
 * An event record. Java keeps the id counter in a static field of the Event
 * class; here it is an explicit IdCounter object that every constructor call
 * receives, reads and advances.
 */
module EventModel {
  import opened Dates

  /** The static `idCounter` of the Event class: the id the next event will get. */
  class IdCounter {
    var next: nat

    /** The static initialiser: numbering starts at 1. */
    constructor ()
      ensures next == 1
    {
      next := 1;
    }
  }

  /** The value of an event at one moment: what the codec, the table and the counters see. */
  datatype EventData = EventData(
    id: nat, name: string, date: Date, venue: string, organizer: string, participants: seq<string>)

  class Event {
    /** Assigned once by the constructor; there is no setter. */
    const id: nat
    var name: string
    var date: Date
    var venue: string
    var organizer: string
    var participants: seq<string>

    /**
     * Takes the counter's current value as the id and advances the counter
     * by one; the participant list starts empty.
     */
    constructor (counter: IdCounter, name: string, date: Date, venue: string, organizer: string)
      modifies counter
      ensures id == old(counter.next) && counter.next == old(counter.next) + 1
      ensures Data() == EventData(id, name, date, venue, organizer, [])
    {
      this.id := counter.next;
      this.name := name;
      this.date := date;
      this.venue := venue;
      this.organizer := organizer;
      this.participants := [];
      new;
      counter.next := counter.next + 1;
    }

    function Data(): EventData
      reads this
    {
      EventData(id, name, date, venue, organizer, participants)
    }

    /** Each setter overwrites its own field and leaves the rest of the event as it was. */
    method SetName(name: string)
      modifies this`name
      ensures Data() == old(Data()).(name := name)
    {
      this.name := name;
    }

    method SetDate(date: Date)
      modifies this`date
      ensures Data() == old(Data()).(date := date)
    {
      this.date := date;
    }

    method SetVenue(venue: string)
      modifies this`venue
      ensures Data() == old(Data()).(venue := venue)
    {
      this.venue := venue;
    }

    method SetOrganizer(organizer: string)
      modifies this`organizer
      ensures Data() == old(Data()).(organizer := organizer)
    {
      this.organizer := organizer;
    }

    /** Appends, duplicates included; the count goes up by exactly one. */
    method AddParticipant(participant: string)
      modifies this`participants
      ensures Data() == old(Data()).(participants := old(participants) + [participant])
      ensures ParticipantCount() == old(ParticipantCount()) + 1
    {
      participants := participants + [participant];
    }

    /** The size of the participant list. */
    function ParticipantCount(): (n: nat)
      reads this
      ensures n == |participants|
    {
      |participants|
    }
  }

  /** The values of a list of events, in list order. */
  function DataOf(events: seq<Event>): (ds: seq<EventData>)
    reads events
    ensures |ds| == |events|
    ensures forall i :: 0 <= i < |events| ==> ds[i] == events[i].Data()
  {
    if events == [] then [] else [events[0].Data()] + DataOf(events[1..])
  }

  /** Extending a prefix of the list by one event extends its values by that event's value. */
  lemma DataOfPrefix(events: seq<Event>, i: nat)
    requires i < |events|
    ensures DataOf(events[..i + 1]) == DataOf(events[..i]) + [events[i].Data()]
  {
    var l, r := DataOf(events[..i + 1]), DataOf(events[..i]) + [events[i].Data()];
    assert |l| == |r|;
    forall k | 0 <= k < |l| ensures l[k] == r[k] {
      assert events[..i + 1][k] == events[k];
    }
  }

  /** One more event adds its value at the end. */
  lemma DataOfSnoc(events: seq<Event>, e: Event)
    ensures DataOf(events + [e]) == DataOf(events) + [e.Data()]
  {
    var l, r := DataOf(events + [e]), DataOf(events) + [e.Data()];
    forall k | 0 <= k < |l| ensures l[k] == r[k] {
      assert (events + [e])[k] == if k < |events| then events[k] else e;
    }
  }

  /** The values of events whose fields no step has touched are what they were. */
  twostate lemma {:induction false} DataOfFrame(es: seq<Event>)
    requires forall k :: 0 <= k < |es| ==> unchanged(es[k])
    ensures DataOf(es) == old(DataOf(es))
  {
    if es != [] {
      DataOfFrame(es[1..]);
    }
  }

}

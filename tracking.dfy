/** The supply-chain tracker of src/components/SupplyChainTracking.tsx:
    the selected block, the event form, `addTrackingEvent`, which records
    an event and a derived block, and `getEventsForBlock`. */
module Tracking {
  import opened Blocks
  import opened JsParse
  import opened LedgerStore

  datatype Status = Origin | Transit | Storage | Processing | Delivered

  function StatusName(s: Status): string
  {
    match s
    case Origin => "origin"
    case Transit => "transit"
    case Storage => "storage"
    case Processing => "processing"
    case Delivered => "delivered"
  }

  datatype Quality = A | B | C

  function QualityName(q: Quality): string
  {
    match q
    case A => "A"
    case B => "B"
    case C => "C"
  }

  /** A tracking event. `id` is the random id and `timestamp` the ISO clock
      reading, both supplied by the caller; the parsed temperature and
      humidity are not modelled. */
  datatype Event = Event(
    id: string,
    blockIndex: nat,
    timestamp: string,
    location: string,
    status: Status,
    quality: Quality,
    handler: string,
    notes: string)

  /** The `newEvent` form state. Temperature and humidity are kept as the
      text typed into them. */
  datatype EventForm = EventForm(
    location: string,
    status: Status,
    temperature: string,
    humidity: string,
    quality: Quality,
    handler: string,
    notes: string)

  /** The form as it starts and as it is reset: `transit`, quality `A`,
      every text field empty. */
  const DefaultForm := EventForm("", Transit, "", "", A, "", "")

  /** The event built from the form for the selected block. */
  function NewEvent(f: EventForm, selected: nat, id: string, timestamp: string): (e: Event)
    ensures e.blockIndex == selected && e.id == id && e.timestamp == timestamp
    ensures e.location == f.location && e.status == f.status && e.quality == f.quality
    ensures e.handler == f.handler && e.notes == f.notes
  {
    Event(id, selected, timestamp, f.location, f.status, f.quality, f.handler, f.notes)
  }

  /** The notes of the derived block: the `Notes: ` part only when the
      event has notes. */
  function EventNotes(e: Event): string
  {
    "Supply Chain Event: " + StatusName(e.status) + " at " + e.location + ". Quality: " + QualityName(e.quality) + ". "
    + (if e.notes != "" then "Notes: " + e.notes else "")
  }

  /** The block recorded for an event on block `b`. */
  function TrackingData(e: Event, b: Block): (d: BlockData)
    ensures d.farmer == e.handler && d.crop == b.crop + " - Tracking"
    ensures d.quantity == b.quantity && d.price == b.price && d.notes == EventNotes(e)
  {
    BlockData(e.handler, b.crop + " - Tracking", b.quantity, b.price, EventNotes(e))
  }

  /** The fixed prefix of the derived notes. */
  function NotesHead(e: Event): string
  {
    "Supply Chain Event: " + StatusName(e.status) + " at " + e.location + ". Quality: " + QualityName(e.quality) + ". "
  }

  /** The derived notes are the fixed sentence, followed by `Notes: ` and
      the event's notes exactly when there are any; nothing is added for
      an event without notes. */
  lemma {:induction false} EventNotesShape(e: Event)
    ensures e.notes == "" ==> EventNotes(e) == NotesHead(e)
    ensures e.notes != "" ==> EventNotes(e) == NotesHead(e) + "Notes: " + e.notes
    ensures |EventNotes(e)| == |NotesHead(e)| + (if e.notes == "" then 0 else 7 + |e.notes|)
  {
    if e.notes == "" {
      assert EventNotes(e) == NotesHead(e) + "";
    }
  }

  /** What `addTrackingEvent` ends with: rejected before anything happens;
      stopped by the missing block (`block.crop` on `undefined`) or by
      `btoa` inside `addBlock`, both after the event was appended; or
      recorded. */
  datatype TrackOutcome = MissingInformation | NoSuchBlock | Threw | Recorded

  /** The component state. */
  class Tracker {
    var events: seq<Event>
    var selected: Option<nat>
    var form: EventForm

    constructor ()
      ensures events == [] && selected == None && form == DefaultForm
    {
      events := [];
      selected := None;
      form := DefaultForm;
    }

    /** A click on a block of the list selects its position. */
    method Select(index: nat)
      modifies this
      ensures selected == Some(index) && events == old(events) && form == old(form)
    {
      selected := Some(index);
    }

    /** `addTrackingEvent()` with the random id and the two clock readings
        (the event's and the block's), on the ledger `onAddBlock` writes
        to. Without a selection, a location or a handler nothing changes.
        Otherwise the event is appended first; the derived block is then
        added, and only when that succeeds is the form reset. */
    method AddTrackingEvent(id: string, eventTime: string, ledger: Ledger, blockTime: string) returns (outcome: TrackOutcome)
      modifies this, ledger
      ensures selected == old(selected)
      ensures old(selected).None? || old(form.location) == "" || old(form.handler) == "" ==>
        outcome == MissingInformation && events == old(events) && form == old(form)
        && ledger.blocks == old(ledger.blocks) && ledger.stored == old(ledger.stored)
      ensures old(selected).Some? && old(form.location) != "" && old(form.handler) != "" ==>
        outcome != MissingInformation
        && events == old(events) + [NewEvent(old(form), old(selected).value, id, eventTime)]
      ensures outcome == NoSuchBlock <==>
        outcome != MissingInformation && old(selected).value >= |old(ledger.blocks)|
      ensures outcome == NoSuchBlock || outcome == Threw ==>
        ledger.blocks == old(ledger.blocks) && ledger.stored == old(ledger.stored) && form == old(form)
      ensures outcome == Threw || outcome == Recorded ==>
        old(selected).value < |old(ledger.blocks)|
        && (outcome == Recorded <==>
            Append(old(ledger.blocks),
                   TrackingData(NewEvent(old(form), old(selected).value, id, eventTime), old(ledger.blocks)[old(selected).value]),
                   blockTime).Some?)
      ensures outcome == Recorded ==>
        ledger.blocks == Append(old(ledger.blocks),
                                TrackingData(NewEvent(old(form), old(selected).value, id, eventTime), old(ledger.blocks)[old(selected).value]),
                                blockTime).value
        && ledger.stored == Saved(ledger.blocks) && form == DefaultForm
    {
      if selected.None? || form.location == "" || form.handler == "" {
        return MissingInformation;
      }
      var index := selected.value;
      var event := NewEvent(form, index, id, eventTime);
      events := events + [event];
      if index >= |ledger.blocks| {
        return NoSuchBlock;
      }
      var ok := ledger.AddBlock(TrackingData(event, ledger.blocks[index]), blockTime);
      if !ok {
        return Threw;
      }
      form := DefaultForm;
      return Recorded;
    }
  }

  /** A derived block, once added, is the last block of the ledger; it
      carries the handler as farmer, the tracked crop with " - Tracking",
      the tracked block's quantity and price, and the event sentence. */
  lemma {:induction false} DerivedBlock(chain: seq<Block>, e: Event, blockTime: string)
    requires e.blockIndex < |chain|
    requires Append(chain, TrackingData(e, chain[e.blockIndex]), blockTime).Some?
    ensures var next := Append(chain, TrackingData(e, chain[e.blockIndex]), blockTime).value;
      var b := next[|chain|];
      |next| == |chain| + 1 && b.index == |chain| && b.farmer == e.handler
      && b.crop == chain[e.blockIndex].crop + " - Tracking"
      && b.quantity == chain[e.blockIndex].quantity && b.price == chain[e.blockIndex].price
      && b.notes == EventNotes(e)
  {
  }

  /** The filter: the events recorded for block `index`, in recording
      order; each of them as often as it was recorded, and no other. */
  function ForBlock(events: seq<Event>, index: nat): (r: seq<Event>)
    ensures |r| <= |events|
    ensures forall e :: e in r <==> e in events && e.blockIndex == index
    ensures forall e :: multiset(r)[e] == if e.blockIndex == index then multiset(events)[e] else 0
  {
    if events == [] then []
    else
      var init := ForBlock(events[..|events| - 1], index);
      var last := events[|events| - 1];
      assert multiset(events) == multiset(events[..|events| - 1]) + multiset{last}
        && forall e :: e in events <==> e in events[..|events| - 1] || e == last by {
        assert events == events[..|events| - 1] + [last];
      }
      if last.blockIndex == index then init + [last] else init
  }

  /** Filtering distributes over concatenation. */
  lemma {:induction false} ForBlockAppend(a: seq<Event>, b: seq<Event>, index: nat)
    ensures ForBlock(a + b, index) == ForBlock(a, index) + ForBlock(b, index)
  {
    if b != [] {
      var bi := b[..|b| - 1];
      assert (a + b)[..|a + b| - 1] == a + bi;
      assert (a + b)[|a + b| - 1] == b[|b| - 1];
      ForBlockAppend(a, bi, index);
    } else {
      assert a + b == a;
    }
  }

  /** `s` is ordered by non-decreasing time. */
  predicate Sorted(s: seq<Event>, millis: string -> int) {
    forall i, j :: 0 <= i < j < |s| ==> millis(s[i].timestamp) <= millis(s[j].timestamp)
  }

  /** Places `x` after every element whose time is not later than its
      own, which keeps ties in their original order. */
  function Insert(x: Event, s: seq<Event>, millis: string -> int): (r: seq<Event>)
    ensures |r| == |s| + 1
  {
    if s == [] then [x]
    else if millis(s[|s| - 1].timestamp) <= millis(x.timestamp) then s + [x]
    else Insert(x, s[..|s| - 1], millis) + [s[|s| - 1]]
  }

  /** The stable sort `Array.prototype.sort` performs with the comparator
      `getTime(a) - getTime(b)`; `millis` is `new Date(t).getTime()`. */
  function SortByTime(s: seq<Event>, millis: string -> int): (r: seq<Event>)
    ensures |r| == |s|
  {
    if s == [] then [] else Insert(s[|s| - 1], SortByTime(s[..|s| - 1], millis), millis)
  }

  /** `getEventsForBlock(index)`: exactly the events of the block, each as
      often as it was recorded, ordered by time; the events of one time
      keep the order in which they were recorded. */
  function EventsForBlock(events: seq<Event>, index: nat, millis: string -> int): (r: seq<Event>)
    ensures Sorted(r, millis)
    ensures forall e :: multiset(r)[e] == if e.blockIndex == index then multiset(events)[e] else 0
    ensures forall e :: e in r <==> e in events && e.blockIndex == index
    ensures forall t :: At(r, t, millis) == ForBlock(At(events, t, millis), index)
  {
    var f := ForBlock(events, index);
    var r := SortByTime(f, millis);
    assert Sorted(r, millis) && multiset(r) == multiset(f) by {
      SortSortsAndPermutes(f, millis);
    }
    assert forall e :: e in r <==> e in f by {
      forall e ensures e in r <==> e in f {
        assert e in multiset(r) <==> e in multiset(f);
      }
    }
    assert forall t :: At(r, t, millis) == ForBlock(At(events, t, millis), index) by {
      forall t ensures At(r, t, millis) == ForBlock(At(events, t, millis), index) {
        SortStable(f, t, millis);
        ForBlockAt(events, index, t, millis);
      }
    }
    r
  }

  /** Insertion adds `x` and keeps everything else. */
  lemma {:induction false} InsertPermutes(x: Event, s: seq<Event>, millis: string -> int)
    ensures multiset(Insert(x, s, millis)) == multiset(s) + multiset{x}
  {
    if s != [] {
      var init := s[..|s| - 1];
      assert s == init + [s[|s| - 1]];
      InsertPermutes(x, init, millis);
    }
  }

  /** Insertion into an ordered list keeps it ordered. */
  lemma {:induction false} InsertSorted(x: Event, s: seq<Event>, millis: string -> int)
    requires Sorted(s, millis)
    ensures Sorted(Insert(x, s, millis), millis)
  {
    if s != [] {
      var init := s[..|s| - 1];
      var last := s[|s| - 1];
      if millis(last.timestamp) <= millis(x.timestamp) {
        SortedSnoc(s, x, millis);
      } else {
        assert Sorted(init, millis);
        InsertSorted(x, init, millis);
        InsertPermutes(x, init, millis);
        var r := Insert(x, init, millis);
        forall k | 0 <= k < |r| ensures millis(r[k].timestamp) <= millis(last.timestamp) {
          assert r[k] in multiset(init) + multiset{x};
          if r[k] != x {
            assert r[k] in init;
            var m :| 0 <= m < |init| && init[m] == r[k];
            assert s[m] == init[m];
          }
        }
        SortedSnoc(r, last, millis);
      }
    }
  }

  lemma {:induction false} SortedSnoc(r: seq<Event>, y: Event, millis: string -> int)
    requires Sorted(r, millis)
    requires forall k :: 0 <= k < |r| ==> millis(r[k].timestamp) <= millis(y.timestamp)
    ensures Sorted(r + [y], millis)
  {
    var t := r + [y];
    forall i, j | 0 <= i < j < |t| ensures millis(t[i].timestamp) <= millis(t[j].timestamp) {
      assert t[i] == r[i];
      if j < |r| {
        assert t[j] == r[j];
      }
    }
  }

  /** The events come out ordered by time, and they are the same events
      (as a multiset) that went in. */
  lemma {:induction false} SortSortsAndPermutes(s: seq<Event>, millis: string -> int)
    ensures Sorted(SortByTime(s, millis), millis)
    ensures multiset(SortByTime(s, millis)) == multiset(s)
  {
    if s != [] {
      var init := s[..|s| - 1];
      SortSortsAndPermutes(init, millis);
      InsertSorted(s[|s| - 1], SortByTime(init, millis), millis);
      InsertPermutes(s[|s| - 1], SortByTime(init, millis), millis);
      assert s == init + [s[|s| - 1]];
    }
  }

  /** The events of `s` at time `t`, in order. */
  function At(s: seq<Event>, t: int, millis: string -> int): seq<Event>
  {
    if s == [] then []
    else At(s[..|s| - 1], t, millis) + (if millis(s[|s| - 1].timestamp) == t then [s[|s| - 1]] else [])
  }

  lemma {:induction false} AtAppend(a: seq<Event>, b: seq<Event>, t: int, millis: string -> int)
    ensures At(a + b, t, millis) == At(a, t, millis) + At(b, t, millis)
  {
    if b != [] {
      var bi := b[..|b| - 1];
      assert (a + b)[..|a + b| - 1] == a + bi;
      assert (a + b)[|a + b| - 1] == b[|b| - 1];
      AtAppend(a, bi, t, millis);
    } else {
      assert a + b == a;
    }
  }

  /** Insertion puts `x` after every earlier event with the same time. */
  lemma {:induction false} InsertStable(x: Event, s: seq<Event>, t: int, millis: string -> int)
    ensures At(Insert(x, s, millis), t, millis) == At(s, t, millis) + At([x], t, millis)
  {
    if s != [] {
      var init := s[..|s| - 1];
      var last := s[|s| - 1];
      assert s == init + [last];
      if millis(last.timestamp) <= millis(x.timestamp) {
        AtAppend(s, [x], t, millis);
      } else {
        InsertStable(x, init, t, millis);
        AtAppend(Insert(x, init, millis), [last], t, millis);
        AtAppend(init, [last], t, millis);
        assert [x][..0] == [];
        assert [last][..0] == [];
      }
    }
  }

  /** Stability: for every time, the events with that time keep the
      order they had before sorting. */
  lemma {:induction false} SortStable(s: seq<Event>, t: int, millis: string -> int)
    ensures At(SortByTime(s, millis), t, millis) == At(s, t, millis)
  {
    if s != [] {
      var init := s[..|s| - 1];
      var last := s[|s| - 1];
      SortStable(init, t, millis);
      InsertStable(last, SortByTime(init, millis), t, millis);
      assert [last][..0] == [];
    }
  }

  /** Taking the events of one time commutes with taking those of one
      block. */
  lemma {:induction false} ForBlockAt(s: seq<Event>, index: nat, t: int, millis: string -> int)
    ensures At(ForBlock(s, index), t, millis) == ForBlock(At(s, t, millis), index)
  {
    if s != [] {
      var init := s[..|s| - 1];
      var last := s[|s| - 1];
      ForBlockAt(init, index, t, millis);
      var mine := if last.blockIndex == index then [last] else [];
      var now := if millis(last.timestamp) == t then [last] else [];
      assert ForBlock(s, index) == ForBlock(init, index) + mine;
      AtAppend(ForBlock(init, index), mine, t, millis);
      assert At(s, t, millis) == At(init, t, millis) + now;
      ForBlockAppend(At(init, t, millis), now, index);
      assert [last][..0] == [];
      assert At(mine, t, millis) == ForBlock(now, index);
    }
  }
}

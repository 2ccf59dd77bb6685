/** The recorder that splits the events of one instruction into batches small enough for a
    cross-program call, and the reader that puts them together again. */
module Recorder {
  import opened Quantities
  import opened Markets
  import opened Codec

  const MAX_INNER_INSTRUCTION_SIZE: nat := 1280
  const LOG_IX_ACCOUNT_META_SIZE: nat := 34
  const HEADER_LEN: nat := 93
  const MAX_EVENT_SIZE: nat := 67
  const U16_MAX: nat := 0xFFFF

  const KEY: Kind := IntKind(32)
  const INDEX: Kind := IntKind(2)

  // ---------- one event ----------

  function EventTag(e: Event): Byte {
    match e
    case Fill(_, _, _, _, _) => 2
    case Place(_, _, _, _) => 3
    case Reduce(_, _, _, _) => 4
    case Evict(_, _, _, _) => 5
    case FillSummary(_, _, _, _) => 6
    case Fee(_) => 7
    case TimeInForce(_, _, _) => 8
    case ExpiredOrder(_, _, _, _) => 9
  }

  /** The fields after the index. */
  function EventSchema(tag: Byte): (kinds: seq<Kind>)
    ensures forall i | 0 <= i < |kinds| :: kinds[i].IntKind?
  {
    if tag == 2 then [KEY, U64_KIND, U64_KIND, U64_KIND, U64_KIND]
    else if tag == 3 then [U64_KIND, U128_KIND, U64_KIND, U64_KIND]
    else if tag == 4 then [U64_KIND, U64_KIND, U64_KIND, U64_KIND]
    else if tag == 5 then [KEY, U64_KIND, U64_KIND, U64_KIND]
    else if tag == 6 then [U128_KIND, U64_KIND, U64_KIND, U64_KIND]
    else if tag == 7 then [U64_KIND]
    else if tag == 8 then [U64_KIND, U64_KIND, U64_KIND]
    else if tag == 9 then [KEY, U64_KIND, U64_KIND, U64_KIND]
    else []
  }

  function EventFields(e: Event): seq<Field> {
    match e
    case Fill(maker, n, price, filled, remaining) => [Int(maker), Int(n), Int(price), Int(filled), Int(remaining)]
    case Place(n, client, price, lots) => [Int(n), Int(client), Int(price), Int(lots)]
    case Reduce(n, price, removed, remaining) => [Int(n), Int(price), Int(removed), Int(remaining)]
    case Evict(maker, n, price, lots) => [Int(maker), Int(n), Int(price), Int(lots)]
    case FillSummary(client, base, quote, fee) => [Int(client), Int(base), Int(quote), Int(fee)]
    case Fee(quote) => [Int(quote)]
    case TimeInForce(n, slot, time) => [Int(n), Int(slot), Int(time)]
    case ExpiredOrder(maker, n, price, removed) => [Int(maker), Int(n), Int(price), Int(removed)]
  }

  /** The numbers of an event fit the integer types they have on the wire. */
  predicate EventFits(e: Event) {
    AllFit(EventSchema(EventTag(e)), EventFields(e))
  }

  function EventOf(tag: Byte, fs: seq<Field>): Option<Event>
    requires |fs| == |EventSchema(tag)| && forall i | 0 <= i < |fs| :: fs[i].Int?
  {
    if tag == 2 then Some(Fill(fs[0].i, fs[1].i, fs[2].i, fs[3].i, fs[4].i))
    else if tag == 3 then Some(Place(fs[0].i, fs[1].i, fs[2].i, fs[3].i))
    else if tag == 4 then Some(Reduce(fs[0].i, fs[1].i, fs[2].i, fs[3].i))
    else if tag == 5 then Some(Evict(fs[0].i, fs[1].i, fs[2].i, fs[3].i))
    else if tag == 6 then Some(FillSummary(fs[0].i, fs[1].i, fs[2].i, fs[3].i))
    else if tag == 7 then Some(Fee(fs[0].i))
    else if tag == 8 then Some(TimeInForce(fs[0].i, fs[1].i, fs[2].i))
    else if tag == 9 then Some(ExpiredOrder(fs[0].i, fs[1].i, fs[2].i, fs[3].i))
    else None
  }

  lemma EventOfFields(e: Event)
    requires EventFits(e)
    ensures var fs := EventFields(e);
            |fs| == |EventSchema(EventTag(e))| && (forall i | 0 <= i < |fs| :: fs[i].Int?)
    ensures EventOf(EventTag(e), EventFields(e)) == Some(e)
  {
  }

  /** An event on the wire: its variant, its index within the instruction, its fields. */
  function Serialize(index: nat, e: Event): seq<Byte>
    requires EventFits(e) && index <= U16_MAX
  {
    [EventTag(e)] + (LittleEndian(index, 2) + EncodeAll(EventSchema(EventTag(e)), EventFields(e)))
  }

  function ParseEvent(b: seq<Byte>): Option<((nat, Event), seq<Byte>)> {
    if |b| < 3 then None else
      match ParseAll(EventSchema(b[0]), b[3..])
      case None => None
      case Some((fs, rest)) =>
        ParseAllSound(EventSchema(b[0]), b[3..]);
        ParsedInts(EventSchema(b[0]), fs);
        match EventOf(b[0], fs)
        case None => None
        case Some(e) => Some(((FromLittleEndian(b[1..3]), e), rest))
  }

  lemma ParsedInts(kinds: seq<Kind>, fs: seq<Field>)
    requires AllFit(kinds, fs) && forall i | 0 <= i < |kinds| :: kinds[i].IntKind?
    ensures forall i | 0 <= i < |fs| :: fs[i].Int?
  {
    assert forall i | 0 <= i < |fs| :: Fits(kinds[i], fs[i]);
  }

  lemma TwoBytes(n: nat)
    requires n <= U16_MAX
    ensures FromLittleEndian(LittleEndian(n, 2)) == n
  {
    assert Pow256(1) == 256 && Pow256(2) == 65536;
    LittleEndianRoundTrip(n, 2);
  }

  /** A serialized event is read back, whatever follows it. */
  lemma EventRoundTrip(index: nat, e: Event, rest: seq<Byte>)
    requires EventFits(e) && index <= U16_MAX
    ensures ParseEvent(Serialize(index, e) + rest) == Some(((index, e), rest))
  {
    hide EventSchema, EventFields, EventOf, EncodeAll, LittleEndian, FromLittleEndian;
    EventOfFields(e);
    TwoBytes(index);
    var kinds, fs := EventSchema(EventTag(e)), EventFields(e);
    var b := Serialize(index, e) + rest;
    assert b[1..3] == LittleEndian(index, 2);
    assert b[3..] == EncodeAll(kinds, fs) + rest;
    ParseAllComplete(kinds, fs, rest);
  }

  function Sum(kinds: seq<Kind>): nat
    requires forall i | 0 <= i < |kinds| :: kinds[i].IntKind?
  {
    if kinds == [] then 0 else kinds[0].width + Sum(kinds[1..])
  }

  lemma {:induction false} EncodedSize(kinds: seq<Kind>, fs: seq<Field>)
    requires AllFit(kinds, fs) && forall i | 0 <= i < |kinds| :: kinds[i].IntKind?
    ensures |EncodeAll(kinds, fs)| == Sum(kinds)
    decreases kinds
  {
    if kinds != [] {
      EncodedSize(kinds[1..], fs[1..]);
    }
  }

  lemma {:induction false} SumAtMost(kinds: seq<Kind>, width: nat)
    requires forall i | 0 <= i < |kinds| :: kinds[i].IntKind? && kinds[i].width <= width
    ensures Sum(kinds) <= width * |kinds|
  {
    if kinds != [] {
      SumAtMost(kinds[1..], width);
      assert width * |kinds| == width + width * (|kinds| - 1);
    }
  }

  lemma SchemaSize(tag: Byte)
    ensures 3 + Sum(EventSchema(tag)) <= MAX_EVENT_SIZE
  {
    var kinds := EventSchema(tag);
    if tag == 2 || tag == 5 || tag == 9 {
      SumAtMost(kinds[1..], 8);
    } else {
      SumAtMost(kinds, 16);
    }
  }

  /** How an event begins: its variant, then its index, lowest byte first. */
  lemma EventBegins(index: nat, e: Event)
    requires EventFits(e) && index <= U16_MAX
    ensures var b := Serialize(index, e);
            && |b| >= 3 && b[1] == index % 256 && b[2] == index / 256
            && b[0] == (match e
                        case Fill(_, _, _, _, _) => 2
                        case Place(_, _, _, _) => 3
                        case Reduce(_, _, _, _) => 4
                        case Evict(_, _, _, _) => 5
                        case FillSummary(_, _, _, _) => 6
                        case Fee(_) => 7
                        case TimeInForce(_, _, _) => 8
                        case ExpiredOrder(_, _, _, _) => 9)
  {
    hide EventSchema, EventFields, EncodeAll;
    assert LittleEndian(index, 2) == [index % 256, index / 256 % 256];
  }

  /** No event is larger than the fill event. */
  lemma EventSize(index: nat, e: Event)
    requires EventFits(e) && index <= U16_MAX
    ensures 0 < |Serialize(index, e)| <= MAX_EVENT_SIZE
  {
    hide EventSchema, EventFields, EncodeAll, Sum;
    EncodedSize(EventSchema(EventTag(e)), EventFields(e));
    SchemaSize(EventTag(e));
  }

  // ---------- a batch ----------

  predicate AllEventsFit(events: seq<Event>) {
    forall i | 0 <= i < |events| :: EventFits(events[i])
  }

  /** The serialized events from index `from` on. */
  function Serialized(events: seq<Event>, from: nat): seq<Byte>
    requires AllEventsFit(events) && from + |events| <= U16_MAX
  {
    if events == [] then [] else
      var n := |events| - 1;
      Serialized(events[..n], from) + Serialize(from + n, events[n])
  }

  function Indexed(events: seq<Event>, from: nat): seq<(nat, Event)> {
    seq(|events|, i requires 0 <= i < |events| => (from + i, events[i]))
  }

  function ParseEvents(n: nat, b: seq<Byte>): Option<(seq<(nat, Event)>, seq<Byte>)> {
    if n == 0 then Some(([], b)) else
      match ParseEvent(b)
      case None => None
      case Some((e, rest)) =>
        match ParseEvents(n - 1, rest)
        case None => None
        case Some((es, rest')) => Some(([e] + es, rest'))
  }

  lemma {:induction false} ParseEventsAppend(n: nat, b: seq<Byte>, es: seq<(nat, Event)>, mid: seq<Byte>, e: (nat, Event), rest: seq<Byte>)
    requires ParseEvents(n, b) == Some((es, mid)) && ParseEvent(mid) == Some((e, rest))
    ensures ParseEvents(n + 1, b) == Some((es + [e], rest))
  {
    hide ParseEvent;
    if n == 0 {
      assert ParseEvents(0, rest) == Some(([], rest));
      assert es + [e] == [e] + [];
    } else {
      var (first, next) := ParseEvent(b).value;
      ParseEventsAppend(n - 1, next, es[1..], mid, e, rest);
      assert [first] + (es[1..] + [e]) == es + [e];
    }
  }

  lemma {:induction false} ParseEventsComplete(events: seq<Event>, from: nat, rest: seq<Byte>)
    requires AllEventsFit(events) && from + |events| <= U16_MAX
    ensures ParseEvents(|events|, Serialized(events, from) + rest) == Some((Indexed(events, from), rest))
    decreases |events|
  {
    hide ParseEvent, Serialize, EventFits;
    if events == [] {
      assert Serialized(events, from) + rest == rest;
      assert Indexed(events, from) == [];
    } else {
      var n := |events| - 1;
      var last := Serialize(from + n, events[n]);
      ParseEventsComplete(events[..n], from, last + rest);
      Reassociate(Serialized(events[..n], from), last, rest);
      EventRoundTrip(from + n, events[n], rest);
      ParseEventsAppend(n, Serialized(events, from) + rest, Indexed(events[..n], from), last + rest, (from + n, events[n]), rest);
      assert Indexed(events[..n], from) + [(from + n, events[n])] == Indexed(events, from);
    }
  }

  /** The batch with the given leading header bytes that carries `events`, the first of which has
      index `from`. */
  predicate BatchOf(head: seq<Byte>, batch: seq<Byte>, events: seq<Event>, from: nat)
    requires AllEventsFit(events) && from + |events| <= U16_MAX
  {
    && |head| == HEADER_LEN - 2
    && batch == head + LittleEndian(|events|, 2) + Serialized(events, from)
    && |batch| + LOG_IX_ACCOUNT_META_SIZE <= MAX_INNER_INSTRUCTION_SIZE
  }

  /** Reads a batch by its header's event count; nothing may be left over. */
  function ReadBatch(batch: seq<Byte>): Option<seq<(nat, Event)>> {
    if |batch| < HEADER_LEN then None else
      match ParseEvents(FromLittleEndian(batch[HEADER_LEN - 2..HEADER_LEN]), batch[HEADER_LEN..])
      case None => None
      case Some((es, rest)) => if rest == [] then Some(es) else None
  }

  lemma ReadBatchExact(head: seq<Byte>, batch: seq<Byte>, events: seq<Event>, from: nat)
    requires AllEventsFit(events) && from + |events| <= U16_MAX
    requires BatchOf(head, batch, events, from)
    ensures ReadBatch(batch) == Some(Indexed(events, from))
  {
    hide ParseEvents, Serialized, LittleEndian, FromLittleEndian, Indexed;
    TwoBytes(|events|);
    ParseEventsComplete(events, from, []);
    assert batch[HEADER_LEN - 2..HEADER_LEN] == LittleEndian(|events|, 2);
    assert batch[HEADER_LEN..] == Serialized(events, from) + [];
  }

  // ---------- all batches of an instruction ----------

  function ReadAll(sent: seq<seq<Byte>>): Option<seq<(nat, Event)>> {
    if sent == [] then Some([]) else
      var n := |sent| - 1;
      match (ReadAll(sent[..n]), ReadBatch(sent[n]))
      case (Some(es), Some(es')) => Some(es + es')
      case _ => None
  }

  /** The batches carry exactly `events`, in order. Only the single batch of an instruction without
      events is empty. */
  ghost predicate Carries(head: seq<Byte>, sent: seq<seq<Byte>>, events: seq<Event>)
    requires AllEventsFit(events) && |events| <= U16_MAX
    decreases |sent|
  {
    if sent == [] then events == [] else
      var n := |sent| - 1;
      exists k: nat ::
        && k <= |events|
        && BatchOf(head, sent[n], events[k..], k)
        && Carries(head, sent[..n], events[..k])
        && (n == 0 || 0 < k < |events|)
  }

  lemma CarriesMore(head: seq<Byte>, sent: seq<seq<Byte>>, events: seq<Event>, k: nat, batch: seq<Byte>)
    requires AllEventsFit(events) && |events| <= U16_MAX && k <= |events|
    requires Carries(head, sent, events[..k]) && BatchOf(head, batch, events[k..], k)
    requires sent == [] || 0 < k < |events|
    ensures Carries(head, sent + [batch], events)
  {
    hide BatchOf, EventFits;
    var more := sent + [batch];
    assert more[..|more| - 1] == sent && more[|more| - 1] == batch;
  }

  lemma {:induction false} ReadAllExact(head: seq<Byte>, sent: seq<seq<Byte>>, events: seq<Event>)
    requires AllEventsFit(events) && |events| <= U16_MAX
    requires Carries(head, sent, events)
    ensures ReadAll(sent) == Some(Indexed(events, 0))
    ensures forall i | 0 <= i < |sent| :: |sent[i]| + LOG_IX_ACCOUNT_META_SIZE <= MAX_INNER_INSTRUCTION_SIZE
    ensures forall i | 0 <= i < |sent| && ReadBatch(sent[i]) == Some([]) :: events == [] && |sent| == 1
    decreases |sent|
  {
    hide ReadBatch, Serialized, EventFits, LittleEndian;
    if sent == [] {
      assert Indexed(events, 0) == [];
    } else {
      var n := |sent| - 1;
      var k: nat :| k <= |events| && BatchOf(head, sent[n], events[k..], k) && Carries(head, sent[..n], events[..k])
        && (n == 0 || 0 < k < |events|);
      ReadAllExact(head, sent[..n], events[..k]);
      ReadBatchExact(head, sent[n], events[k..], k);
      assert Indexed(events[..k], 0) + Indexed(events[k..], k) == Indexed(events, 0);
      forall i | 0 <= i < |sent|
        ensures |sent[i]| + LOG_IX_ACCOUNT_META_SIZE <= MAX_INNER_INSTRUCTION_SIZE
        ensures ReadBatch(sent[i]) == Some([]) ==> events == [] && |sent| == 1
      {
        if i < n {
          assert sent[..n][i] == sent[i];
        } else {
          assert |Indexed(events[k..], k)| == |events| - k;
        }
      }
    }
  }

  // ---------- the recorder ----------

  /** The only error a recorder can meet: its other two are proved or taken to be impossible (the
      scratch buffer is empty between calls, and serializing into memory does not fail). */
  datatype RecorderError = FailedToFlushBuffer

  datatype Outcome = Done | Failed | Overflowed

  class EventRecorder {
    /** The instruction data: the header, then the events not yet sent. */
    var data: seq<Byte>
    var scratch: seq<Byte>
    var batchIndex: nat
    var eventsEmitted: nat
    var eventsAdded: nat
    var error: Option<RecorderError>
    /** What the log program received. */
    var sent: seq<seq<Byte>>
    ghost var added: seq<Event>
    ghost const head: seq<Byte>

    /** Without an error, the batches sent carry the first `eventsEmitted` events and the data holds
        the others. */
    ghost predicate Ready()
      reads this
    {
      && AllEventsFit(added)
      && eventsEmitted <= eventsAdded == |added| <= U16_MAX
      && batchIndex == |sent|
      && (sent != [] ==> eventsEmitted > 0)
      && Carries(head, sent, added[..eventsEmitted])
      && |head| == HEADER_LEN - 2
      && |data| >= HEADER_LEN
      && data[..HEADER_LEN - 2] == head
      && data[HEADER_LEN..] == Serialized(added[eventsEmitted..], eventsEmitted)
      && |data| + LOG_IX_ACCOUNT_META_SIZE <= MAX_INNER_INSTRUCTION_SIZE
    }

    ghost predicate Valid()
      reads this
    {
      error.None? ==> Ready() && scratch == []
    }

    constructor (header: seq<Byte>)
      requires |header| == HEADER_LEN
      ensures Valid() && added == [] && sent == [] && error.None?
    {
      data := header;
      scratch := [];
      batchIndex := 0;
      eventsEmitted := 0;
      eventsAdded := 0;
      error := None;
      sent := [];
      added := [];
      head := header[..HEADER_LEN - 2];
    }

    /** Sends the pending events with their number in the header. `delivered` says whether the call
        to the log program succeeds. */
    method Flush(delivered: bool) returns (ok: bool)
      requires Ready()
      requires eventsEmitted < eventsAdded || (batchIndex == 0 && eventsAdded == 0)
      modifies this`data, this`sent, this`batchIndex, this`eventsEmitted
      ensures ok == delivered
      ensures ok ==> Carries(head, sent, added) && eventsEmitted == eventsAdded
      ensures ok && added != [] ==> Ready() && |data| == HEADER_LEN
      ensures ok ==> |sent| == |old(sent)| + 1 && sent[..|old(sent)|] == old(sent)
      ensures !ok ==> sent == old(sent)
    {
      hide Serialized, LittleEndian, EventFits, Carries;
      var batchSize := eventsAdded - eventsEmitted;
      data := data[..HEADER_LEN - 2] + LittleEndian(batchSize, 2) + data[HEADER_LEN..];
      if !delivered {
        return false;
      }
      ghost var k, before := eventsEmitted, sent;
      assert BatchOf(head, data, added[k..], k);
      CarriesMore(head, before, added, k, data);
      sent := sent + [data];
      data := data[..HEADER_LEN];
      eventsEmitted := eventsAdded;
      batchIndex := batchIndex + 1;
      assert added[..eventsEmitted] == added && sent[..|before|] == before;
      assert added[eventsEmitted..] == [];
      NothingSerialized(eventsEmitted);
      ok := true;
    }

    /** Adds an event, first sending the pending ones when it would not fit with them. */
    method AddEvent(e: Event, delivered: bool) returns (outcome: Outcome)
      requires Valid() && EventFits(e)
      modifies this
      ensures outcome != Overflowed ==> Valid()
      ensures outcome == Done ==> added == old(added) + [e] && error.None? && |old(added)| <= U16_MAX
      ensures outcome == Failed ==> error.Some? && sent == old(sent) && (old(error).None? ==> !delivered)
      ensures outcome == Overflowed ==> |old(added)| == U16_MAX
      ensures delivered && old(error).None? && |old(added)| < U16_MAX ==> outcome == Done
      ensures outcome == Done ==>
                var full := |old(data)| + |Serialize(|old(added)|, e)| + LOG_IX_ACCOUNT_META_SIZE > MAX_INNER_INSTRUCTION_SIZE;
                |old(sent)| <= |sent| && sent[..|old(sent)|] == old(sent) && |sent| - |old(sent)| == if full then 1 else 0
    {
      hide Serialized, Serialize, EventFits, Carries;
      if error.Some? {
        return Failed;
      }
      if scratch != [] {
        assert false;
        return Failed;
      }
      if eventsEmitted == eventsAdded {
        NothingSerialized(eventsEmitted);
        assert added[eventsEmitted..] == [];
        assert |data| == HEADER_LEN;
      }
      EventSize(eventsAdded, e);
      scratch := Serialize(eventsAdded, e);
      if |data| + |scratch| + LOG_IX_ACCOUNT_META_SIZE > MAX_INNER_INSTRUCTION_SIZE {
        var ok := Flush(delivered);
        if !ok {
          error := Some(FailedToFlushBuffer);
          return Failed;
        }
      }
      var overflowed := Append(e);
      if overflowed {
        return Overflowed;
      }
      outcome := Done;
    }

    /** Moves the serialized event to the data and counts it; the count may overflow. */
    method Append(ghost e: Event) returns (overflowed: bool)
      requires Ready() && EventFits(e) && scratch == Serialize(eventsAdded, e)
      requires |data| + |scratch| + LOG_IX_ACCOUNT_META_SIZE <= MAX_INNER_INSTRUCTION_SIZE
      modifies this`data, this`scratch, this`eventsAdded, this`added
      ensures overflowed <==> |old(added)| == U16_MAX
      ensures !overflowed ==> Ready() && scratch == [] && added == old(added) + [e]
    {
      hide Serialized, Serialize, EventFits, Carries;
      data := data + scratch;
      if eventsAdded == U16_MAX {
        return true;
      }
      SerializedAppend(added[eventsEmitted..], eventsEmitted, e);
      ghost var pending := added[eventsEmitted..];
      eventsAdded := eventsAdded + 1;
      added := added + [e];
      assert added[eventsEmitted..] == pending + [e];
      assert added[..eventsEmitted] == old(added)[..eventsEmitted];
      scratch := [];
      return false;
    }

    /** Ends the instruction: advances the market's sequence number, unless the market account was
        deleted by a status change, and sends what is pending, or an empty batch when nothing was
        sent at all. On success the log program has received every event. */
    method Finish(marketSequence: Option<nat>, changesStatus: bool, delivered: bool)
      returns (ok: bool, nextSequence: Option<nat>)
      requires Valid()
      modifies this
      ensures ok ==> error.None? && added == old(added) && AllEventsFit(added) && |added| <= U16_MAX
      ensures ok ==> sent != [] && Carries(head, sent, added) && ReadAll(sent) == Some(Indexed(added, 0))
      ensures ok ==> nextSequence == match marketSequence case None => None case Some(n) => Some(n + 1)
      ensures ok ==> marketSequence.Some? || changesStatus
      ensures delivered && old(error).None? && (marketSequence.Some? || changesStatus) ==> ok
    {
      hide Serialized, ReadAll, Indexed, EventFits;
      nextSequence := None;
      if error.Some? {
        return false, None;
      }
      match marketSequence {
        case None =>
          if !changesStatus {
            return false, None;
          }
        case Some(n) => nextSequence := Some(n + 1);
      }
      if batchIndex == 0 || eventsEmitted < eventsAdded {
        ok := Flush(delivered);
        if !ok {
          return;
        }
      }
      assert added[..eventsEmitted] == added;
      ReadAllExact(head, sent, added);
      ok := true;
    }
  }

  lemma SerializedAppend(events: seq<Event>, from: nat, e: Event)
    requires AllEventsFit(events) && EventFits(e) && from + |events| < U16_MAX
    ensures AllEventsFit(events + [e])
    ensures Serialized(events + [e], from) == Serialized(events, from) + Serialize(from + |events|, e)
  {
    hide Serialize, EventFits;
    assert (events + [e])[..|events|] == events;
  }

  lemma NothingSerialized(from: nat)
    requires from <= U16_MAX
    ensures Serialized([], from) == []
  {
  }
}

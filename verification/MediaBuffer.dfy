/** The ring buffer of data messages and the arrays that mirror their headers. */
module MediaBuffers {
  import opened Options
  import opened ChunkIds
  import opened Pipeline
  import DataMessages

  /** The header values of a data message, and its body. */
  datatype DataMessage = DataMessage(
    hop: nat, tries: nat, cycle: nat, position: nat, generationTime: nat, duration: nat, body: seq<nat>)
  {
    function GetSize(): nat {
      DataMessages.MESSAGE_DATA_HEADER_SIZE + |body|
    }

    function ToPacket(size: nat): Packet {
      Packet(ChunkId(cycle, position, size).Linear(), hop, tries, generationTime, duration, body)
    }
  }

  function CountMessages(messages: seq<Option<DataMessage>>): nat {
    if messages == [] then 0
    else (if messages[0].Some? then 1 else 0) + CountMessages(messages[1..])
  }

  lemma {:induction false} CountAfterInsert(messages: seq<Option<DataMessage>>, pos: nat, m: DataMessage)
    requires pos < |messages|
    ensures CountMessages(messages[pos := Some(m)])
            == CountMessages(messages) + if messages[pos].None? then 1 else 0
  {
    if pos > 0 {
      CountAfterInsert(messages[1..], pos - 1, m);
      assert messages[pos := Some(m)][1..] == messages[1..][pos - 1 := Some(m)];
    }
  }

  class MediaBuffer {
    const maxBufferSize: nat
    const buffer: array<Option<DataMessage>>
    const chunkSize: array<nat>
    const hop: array<nat>
    const tries: array<nat>
    const duration: array<nat>
    const id: array<nat>
    const available: array<bool>
    var bufferSize: nat

    ghost function Repr(): set<object> {
      {this, buffer, chunkSize, hop, tries, duration, id, available}
    }

    /** The mirror arrays agree with the stored messages, every message is stored at its own position,
      * and `bufferSize` counts the messages. */
    ghost predicate Valid()
      reads this, buffer, chunkSize, hop, tries, duration, id, available
    {
      && Shape()
      && (forall i :: 0 <= i < maxBufferSize ==>
            Mirrors(i, buffer[i], chunkSize[i], hop[i], tries[i], duration[i], id[i]))
      && bufferSize == CountMessages(buffer[..])
    }

    ghost predicate Shape() {
      && maxBufferSize > 0
      && buffer.Length == chunkSize.Length == hop.Length == tries.Length == maxBufferSize
      && duration.Length == id.Length == available.Length == maxBufferSize
      && chunkSize != hop && chunkSize != tries && chunkSize != duration && chunkSize != id
      && hop != tries && hop != duration && hop != id
      && tries != duration && tries != id && duration != id
    }

    static ghost predicate Mirrors(i: nat, message: Option<DataMessage>, chunkSize: nat, hop: nat, tries: nat,
                                   duration: nat, id: nat)
    {
      match message
      case None => id == 0
      case Some(m) =>
        && m.position == i && id == m.cycle && chunkSize == m.GetSize()
        && hop == m.hop && tries == m.tries && duration == m.duration
    }

    ghost function SlotAt(i: nat): Slot
      requires Shape() && i < maxBufferSize
      reads this, buffer, chunkSize, hop, tries, duration, id, available
    {
      Slot(if buffer[i].None? then None else Some(buffer[i].value.ToPacket(maxBufferSize)), available[i])
    }

    ghost function View(): (slots: seq<Slot>)
      requires Shape()
      reads this, buffer, chunkSize, hop, tries, duration, id, available
      ensures |slots| == maxBufferSize
      ensures forall i :: 0 <= i < maxBufferSize ==> slots[i] == SlotAt(i)
    {
      seq(maxBufferSize,
          i requires 0 <= i < maxBufferSize
            reads this, buffer, chunkSize, hop, tries, duration, id, available
          => SlotAt(i))
    }

    constructor (bsize: nat)
      requires bsize > 0
      ensures Valid() && fresh(Repr()) && maxBufferSize == bsize
      ensures View() == seq(bsize, _ => Slot(None, false))
    {
      maxBufferSize := bsize;
      buffer := new Option<DataMessage>[bsize](_ => None);
      chunkSize := new nat[bsize](_ => 0);
      hop := new nat[bsize](_ => 0);
      tries := new nat[bsize](_ => 0);
      duration := new nat[bsize](_ => 0);
      id := new nat[bsize](_ => 0);
      available := new bool[bsize](_ => false);
      bufferSize := 0;
      new;
      StartsEmpty();
    }

    lemma StartsEmpty()
      requires Shape() && bufferSize == 0
      requires forall i :: 0 <= i < maxBufferSize ==> buffer[i] == None && id[i] == 0 && !available[i]
      ensures Valid() && View() == seq(maxBufferSize, _ => Slot(None, false))
    {
      EmptyCount(buffer[..]);
    }

    static lemma {:induction false} EmptyCount(messages: seq<Option<DataMessage>>)
      requires forall i :: 0 <= i < |messages| ==> messages[i] == None
      ensures CountMessages(messages) == 0
    {
      if messages != [] {
        EmptyCount(messages[1..]);
      }
    }

    method Insert(chunkMessage: DataMessage, available: bool)
      requires Valid() && chunkMessage.position < maxBufferSize
      modifies Repr()
      ensures Valid()
      ensures View() == old(View())[chunkMessage.position :=
                          Slot(Some(chunkMessage.ToPacket(maxBufferSize)), available)]
    {
      var pos := chunkMessage.position;
      CountAfterInsert(buffer[..], pos, chunkMessage);
      assert Mirrors(pos, Some(chunkMessage), chunkMessage.GetSize(), chunkMessage.hop, chunkMessage.tries,
                     chunkMessage.duration, chunkMessage.cycle);
      hide Mirrors, CountMessages;
      if buffer[pos] == None {
        bufferSize := bufferSize + 1;
      }
      buffer[pos] := Some(chunkMessage);
      chunkSize[pos] := chunkMessage.GetSize();
      id[pos] := chunkMessage.cycle;
      hop[pos] := chunkMessage.hop;
      tries[pos] := chunkMessage.tries;
      duration[pos] := chunkMessage.duration;
      this.available[pos] := available;
      assert buffer[..] == old(buffer[..])[pos := Some(chunkMessage)];
    }

    method SetAvailable(pos: nat)
      requires Valid() && pos < maxBufferSize
      modifies available
      ensures Valid() && View() == old(View())[pos := old(View())[pos].(available := true)]
    {
      hide Mirrors;
      this.available[pos] := true;
    }

    method UnsetAvailable(pos: nat)
      requires Valid() && pos < maxBufferSize
      modifies available
      ensures Valid() && View() == old(View())[pos := old(View())[pos].(available := false)]
    {
      hide Mirrors;
      this.available[pos] := false;
    }

    method Available(pos: nat) returns (r: bool)
      requires Valid() && pos < maxBufferSize
      ensures r == View()[pos].Ready()
    {
      if buffer[pos] != None {
        r := this.available[pos];
      } else {
        r := false;
      }
    }

    method GetID(pos: nat) returns (r: nat)
      requires Valid() && pos < maxBufferSize
      ensures r == View()[pos].Cycle(maxBufferSize)
    {
      r := id[pos];
      assert Mirrors(pos, buffer[pos], chunkSize[pos], hop[pos], tries[pos], duration[pos], id[pos]);
      if buffer[pos].Some? {
        ChunkId(r, pos, maxBufferSize).LinearParts();
      }
    }

    method SetDuration(pos: nat, newDuration: nat)
      requires Valid() && pos < maxBufferSize && View()[pos].packet.Some?
      modifies Repr()
      ensures Valid()
      ensures var slot := old(View())[pos];
              View() == old(View())[pos := slot.(packet := Some(slot.packet.value.(duration := newDuration)))]
    {
      var updated := buffer[pos].value.(duration := newDuration);
      CountAfterInsert(buffer[..], pos, updated);
      assert Mirrors(pos, Some(updated), chunkSize[pos], hop[pos], tries[pos], newDuration, id[pos]);
      hide Mirrors, CountMessages;
      duration[pos] := newDuration;
      buffer[pos] := Some(updated);
      assert buffer[..] == old(buffer[..])[pos := buffer[pos]];
    }

    /** `(*mediaBuffer)[pos]` */
    method Get(pos: nat) returns (r: Option<DataMessage>)
      requires Valid() && pos < maxBufferSize
      ensures r == buffer[pos]
    {
      r := buffer[pos];
    }
  }
}

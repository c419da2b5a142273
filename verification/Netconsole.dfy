/** The input buffer of the network console: a ring of 512 bytes, filled by packets and emptied by reads. */
module Netconsole {
  import opened Words

  const SIZE: int := 512

  /** A packet for the configured port is taken for it only if the port is below 32768: nc_port is a short, and
      compared as an unsigned number after its sign has been extended. */
  lemma PortMatches(port: int)
    requires 0 <= port < 0x1_0000
    ensures port == U32(Short(port)) <==> port < 0x8000
  {
  }

  datatype Event = Packet(dest: int, data: seq<bv8>) | Read

  /** The first bytes of a packet, as many as there is room for: bytes are dropped only once the buffer is full. */
  function Accepted(queue: seq<bv8>, port: int, dest: int, data: seq<bv8>): (r: seq<bv8>)
    requires |queue| <= SIZE
    ensures |queue| + |r| <= SIZE && r <= data
    ensures if dest == U32(port) then r == data || |queue| + |r| == SIZE else r == []
  {
    if dest != U32(port) then [] else if |data| <= SIZE - |queue| then data else data[..SIZE - |queue|]
  }

  /** A bounded first-in first-out queue: what is in it after some events, a read taking the oldest byte. */
  function After(queue: seq<bv8>, port: int, events: seq<Event>): (r: seq<bv8>)
    requires |queue| <= SIZE
    ensures |r| <= SIZE
    decreases |events|
  {
    if events == [] then queue
    else match events[0]
      case Packet(dest, data) => After(queue + Accepted(queue, port, dest, data), port, events[1..])
      case Read => After(if queue == [] then [] else queue[1..], port, events[1..])
  }

  /** What the reads of some events return; a read of an empty queue waits, and returns nothing here. */
  function Reads(queue: seq<bv8>, port: int, events: seq<Event>): seq<bv8>
    requires |queue| <= SIZE
    decreases |events|
  {
    if events == [] then []
    else match events[0]
      case Packet(dest, data) => Reads(queue + Accepted(queue, port, dest, data), port, events[1..])
      case Read =>
        if queue == [] then Reads([], port, events[1..])
        else [queue[0]] + Reads(queue[1..], port, events[1..])
  }

  /** What the packets of some events put in. */
  function Taken(queue: seq<bv8>, port: int, events: seq<Event>): seq<bv8>
    requires |queue| <= SIZE
    decreases |events|
  {
    if events == [] then []
    else match events[0]
      case Packet(dest, data) =>
        var a := Accepted(queue, port, dest, data);
        a + Taken(queue + a, port, events[1..])
      case Read => Taken(if queue == [] then [] else queue[1..], port, events[1..])
  }

  /** Nothing is lost or reordered: what was in the queue and what came in is what was read and what is left. */
  lemma {:induction false} InOrder(queue: seq<bv8>, port: int, events: seq<Event>)
    requires |queue| <= SIZE
    ensures queue + Taken(queue, port, events) == Reads(queue, port, events) + After(queue, port, events)
    decreases |events|
  {
    if events == [] {
      assert queue + [] == [] + queue;
    } else {
      match events[0]
      case Packet(dest, data) =>
        var a := Accepted(queue, port, dest, data);
        InOrder(queue + a, port, events[1..]);
        assert queue + (a + Taken(queue + a, port, events[1..])) == (queue + a) + Taken(queue + a, port, events[1..]);
      case Read =>
        if queue == [] {
          InOrder([], port, events[1..]);
        } else {
          InOrder(queue[1..], port, events[1..]);
          assert queue == [queue[0]] + queue[1..];
          OneRead(queue[0], queue[1..], Taken(queue[1..], port, events[1..]),
                  Reads(queue[1..], port, events[1..]), After(queue[1..], port, events[1..]));
        }
    }
  }

  lemma OneRead(b: bv8, q: seq<bv8>, t: seq<bv8>, r: seq<bv8>, a: seq<bv8>)
    requires q + t == r + a
    ensures ([b] + q) + t == ([b] + r) + a
  {
    assert ([b] + q) + t == [b] + (q + t) && ([b] + r) + a == [b] + (r + a);
  }

  /** Byte i of the queue lies i places after the offset, around the end of the ring. */
  function Place(offset: int, i: int): int {
    if offset + i < SIZE then offset + i else offset + i - SIZE
  }

  class Console {
    const input_buffer: array<bv8>
    var input_size: int
    var input_offset: int
    var nc_port: int

    ghost var queue: seq<bv8>

    ghost predicate Held(i: int)
      reads this, input_buffer
    {
      0 <= i < |queue| <= SIZE && input_buffer.Length == SIZE && 0 <= input_offset < SIZE ==>
        input_buffer[Place(input_offset, i)] == queue[i]
    }

    ghost predicate Valid()
      reads this, input_buffer
    {
      && input_buffer.Length == SIZE && 0 <= input_offset < SIZE && 0 <= input_size <= SIZE
      && |queue| == input_size && forall i {:trigger Held(i)} :: Held(i)
    }

    constructor (port: int)
      ensures Valid() && queue == [] && nc_port == Short(port) && fresh(input_buffer)
    {
      input_buffer := new bv8[SIZE];
      input_size, input_offset, nc_port, queue := 0, 0, Short(port), [];
    }

    /** memcpy(input_buffer + at, pkt + from, n) */
    method CopyIn(at: int, pkt: seq<bv8>, from: int, n: int)
      requires input_buffer.Length == SIZE && 0 <= at && 0 <= n && at + n <= SIZE && 0 <= from && from + n <= |pkt|
      modifies input_buffer
      ensures forall k :: 0 <= k < SIZE ==>
                input_buffer[k] == if at <= k < at + n then pkt[from + k - at] else old(input_buffer[k])
    {
      for i := 0 to n
        invariant forall k :: 0 <= k < SIZE ==>
                    input_buffer[k] == if at <= k < at + i then pkt[from + k - at] else old(input_buffer[k])
      {
        input_buffer[at + i] := pkt[from + i];
      }
    }

    /** nc_input_packet: the first bytes of a packet for the port go in, as many as there is room for. */
    method InputPacket(pkt: seq<bv8>, dest: int) returns (r: int)
      requires Valid() && |pkt| < W32 && 0 <= dest < W32
      modifies this`input_size, this`queue, input_buffer
      ensures Valid() && queue == old(queue) + Accepted(old(queue), nc_port, dest, pkt)
      ensures r == if dest == U32(nc_port) && pkt != [] then 1 else 0
    {
      var len := |pkt|;
      if dest != U32(nc_port) || len == 0 {
        return 0;
      }
      if input_size == SIZE {
        return 1;
      }
      if len > SIZE - input_size {
        len := SIZE - input_size;
      }
      PutBytes(pkt, len);
      r := 1;
    }

    /** The two copies, before and after the end of the ring. */
    method PutBytes(pkt: seq<bv8>, len: int)
      requires Valid() && 0 < len <= |pkt| && input_size + len <= SIZE
      modifies this`input_size, this`queue, input_buffer
      ensures Valid() && queue == old(queue) + pkt[..len]
    {
      var end := input_offset + input_size;
      if end > SIZE {
        end := end - SIZE;
      }
      var chunk := len;
      if end + len > SIZE {
        chunk := SIZE - end;
        CopyIn(0, pkt, chunk, len - chunk);
      }
      CopyIn(end, pkt, 0, chunk);
      input_size := input_size + len;
      queue := queue + pkt[..len];
      forall i ensures Held(i) {
        assert old(Held(i));
      }
    }

    /** nc_getc, once there is input. */
    method GetC() returns (c: bv8)
      requires Valid() && queue != []
      modifies this`input_size, this`input_offset, this`queue
      ensures Valid() && c == old(queue)[0] && queue == old(queue)[1..]
    {
      assert Held(0);
      c := input_buffer[input_offset];
      input_offset := input_offset + 1;
      if input_offset >= SIZE {
        input_offset := input_offset - SIZE;
      }
      input_size := input_size - 1;
      queue := queue[1..];
      forall i ensures Held(i) {
        assert old(Held(i + 1));
      }
    }

    /** Any interleaving of packets and reads: the ring is the bounded queue. */
    method Run(events: seq<Event>) returns (read: seq<bv8>)
      requires Valid()
      requires forall i :: 0 <= i < |events| && events[i].Packet? ==>
                |events[i].data| < W32 && 0 <= events[i].dest < W32
      modifies this`input_size, this`input_offset, this`queue, input_buffer
      ensures Valid() && queue == After(old(queue), nc_port, events) && read == Reads(old(queue), nc_port, events)
    {
      read := [];
      for n := 0 to |events|
        invariant Valid()
        invariant After(old(queue), nc_port, events) == After(queue, nc_port, events[n..])
        invariant Reads(old(queue), nc_port, events) == read + Reads(queue, nc_port, events[n..])
      {
        ghost var more := events[n + 1..];
        assert events[n..][0] == events[n] && events[n..][1..] == more;
        match events[n] {
          case Packet(dest, data) =>
            var r := InputPacket(data, dest);
          case Read =>
            if input_size > 0 {
              ghost var q := queue;
              var c := GetC();
              assert read + ([q[0]] + Reads(q[1..], nc_port, more)) == (read + [c]) + Reads(queue, nc_port, more);
              read := read + [c];
            }
        }
      }
    }
  }
}

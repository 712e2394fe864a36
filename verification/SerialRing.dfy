/** The receive ring of HardwareSerial: the interrupt handler produces, the main
    program consumes, and neither takes a lock. The consumer's methods are cut at each
    access to a shared variable; between any two accesses the interrupt may run any
    number of times. */
module SerialRing {
  import opened Words

  /** One received frame, as the interrupt handler finds it. */
  datatype Frame = Frame(c: u8, parityError: bool)

  /** What a ring with its next read at `tail` and its next write at `head` holds. */
  function Ring<T>(a: seq<T>, tail: nat, head: nat): seq<T>
    requires tail < |a| && head < |a|
  {
    if tail <= head then a[tail..head] else a[tail..] + a[..head]
  }

  function Successor(i: nat, size: nat): (j: nat)
    requires i < size
    ensures j < size
  {
    if i + 1 == size then 0 else i + 1
  }

  /** The next index, as the handler computes it and as read() does, with a cast to
      uint8_t before the modulus. */
  lemma SuccessorIsModulus(i: nat, size: nat)
    requires i < size <= 256
    ensures (i + 1) % size == Successor(i, size) && Wrap8(i + 1) % size == Successor(i, size)
  {
    if i + 1 == size {
      ModulusOf(size, size, 1, 0);
      ModulusOf(0, size, 0, 0);
    } else {
      ModulusOf(i + 1, size, 0, i + 1);
    }
  }

  lemma ModulusOf(a: nat, n: nat, q: nat, r: nat)
    requires n > 0 && r < n && q <= 1 && a == (if q == 0 then 0 else n) + r
    ensures a % n == r
  {
    var d := a / n;
    assert a == n * d + a % n;
    assert d >= 2 ==> n * d == n + n + n * (d - 2);
    assert d == 1 ==> n * d == n;
  }

  lemma Push<T>(a: seq<T>, tail: nat, head: nat, c: T)
    requires tail < |a| && head < |a| && Successor(head, |a|) != tail
    ensures Ring(a[head := c], tail, Successor(head, |a|)) == Ring(a, tail, head) + [c]
  {
    var a' := a[head := c];
    if tail <= head && head + 1 < |a| {
      assert a'[tail..head + 1] == a[tail..head] + [c];
    } else if tail <= head {
      assert a'[tail..] + a'[..0] == a[tail..head] + [c];
    } else {
      assert a'[tail..] == a[tail..] && a'[..head + 1] == a[..head] + [c];
    }
  }

  lemma Pop<T>(a: seq<T>, tail: nat, head: nat)
    requires tail < |a| && head < |a| && tail != head
    ensures Ring(a, tail, head) == [a[tail]] + Ring(a, Successor(tail, |a|), head)
  {
    if tail < head {
      SliceHead(a, tail, head);
    } else {
      PopWrapped(a, tail, head);
    }
  }

  lemma PopWrapped<T>(a: seq<T>, tail: nat, head: nat)
    requires head < tail < |a|
    ensures Ring(a, tail, head) == [a[tail]] + Ring(a, Successor(tail, |a|), head)
  {
    SliceHead(a, tail, |a|);
    var behind := a[tail + 1..|a|];
    assert a[tail..] == [a[tail]] + behind;
    assert [a[tail]] + behind + a[..head] == [a[tail]] + (behind + a[..head]);
    if tail + 1 == |a| {
      assert behind + a[..head] == a[0..head];
    }
  }

  lemma SliceHead<T>(a: seq<T>, i: nat, j: nat)
    requires i < j <= |a|
    ensures a[i..j] == [a[i]] + a[i + 1..j]
  {}

  /** The index arithmetic of available() counts what is held; a ring one short of its
      size cannot grow. */
  lemma RingCount<T>(a: seq<T>, tail: nat, head: nat)
    requires tail < |a| && head < |a|
    ensures |Ring(a, tail, head)| == (|a| + head - tail) % |a|
    ensures |Ring(a, tail, head)| == |a| - 1 <==> Successor(head, |a|) == tail
    ensures Ring(a, tail, head) == [] <==> tail == head
  {
    if tail <= head {
      ModulusOf(|a| + head - tail, |a|, 1, head - tail);
    } else {
      ModulusOf(|a| + head - tail, |a|, 0, |a| + head - tail);
    }
  }

  /** What a queue for at most `room` bytes holds after some frames arrive. */
  function Arrive(q: seq<u8>, fs: seq<Frame>, room: nat): (r: seq<u8>)
    ensures q <= r
  {
    if fs == [] then q
    else
      var p := Arrive(q, fs[..|fs| - 1], room);
      var f := fs[|fs| - 1];
      if f.parityError || |p| == room then p else p + [f.c]
  }

  /** The bytes that came without a parity error. */
  function Good(fs: seq<Frame>): seq<u8> {
    if fs == [] then [] else Good(fs[..|fs| - 1]) + if fs[|fs| - 1].parityError then [] else [fs[|fs| - 1].c]
  }

  /** What arrives is held in order, without the bad frames, as far as there is room. */
  lemma {:induction false} ArriveIs(q: seq<u8>, fs: seq<Frame>, room: nat)
    requires |q| <= room
    ensures var good := Good(fs);
            Arrive(q, fs, room) == q + good[..if |good| < room - |q| then |good| else room - |q|]
  {
    if fs != [] {
      ArriveIs(q, fs[..|fs| - 1], room);
    }
  }

  lemma {:induction false} ArriveTwice(q: seq<u8>, fs: seq<Frame>, gs: seq<Frame>, room: nat)
    ensures Arrive(Arrive(q, fs, room), gs, room) == Arrive(q, fs + gs, room)
  {
    if gs == [] {
      assert fs + gs == fs;
    } else {
      ArriveTwice(q, fs, gs[..|gs| - 1], room);
      assert (fs + gs)[..|fs + gs| - 1] == fs + gs[..|gs| - 1];
    }
  }

  class HardwareSerial {
    const size: nat             // SERIAL_RX_BUFFER_SIZE
    const buffer: array<u8>
    var head: u8                // rx_buffer_index_t is uint8_t for sizes up to 256
    var tail: u8
    ghost var accepted: seq<u8> // every byte the interrupt handler stored
    ghost var taken: seq<u8>    // every byte that has left the ring again

    ghost predicate Shaped()
      reads this
    {
      2 <= size <= 256 && buffer.Length == size && head < size && tail < size
    }

    ghost function Contents(): seq<u8>
      requires Shaped()
      reads this, buffer
    {
      Ring(buffer[..], tail, head)
    }

    /** The queue property: what was stored is what was taken, then what is held. */
    ghost predicate Valid()
      reads this, buffer
    {
      Shaped() && accepted == taken + Contents()
    }

    constructor (size: nat)
      requires 2 <= size <= 256
      ensures Valid() && Contents() == [] && accepted == [] && this.size == size && fresh(buffer)
    {
      this.size := size;
      buffer := new u8[size];
      head, tail := 0, 0;
      accepted, taken := [], [];
    }

    /** _rx_complete_irq: stores a byte without parity error, and drops it only when
        size - 1 bytes are held. */
    method RxComplete(f: Frame)
      requires Valid()
      modifies this`head, this`accepted, buffer
      ensures Valid()
      ensures Contents() == Arrive(old(Contents()), [f], size - 1)
    {
      RingCount(buffer[..], tail, head);
      assert [f][..0] == [];
      if !f.parityError {
        var i: u8 := (head as int + 1) % size;
        SuccessorIsModulus(head, size);
        if i != tail {
          Push(buffer[..], tail, head, f.c);
          assert buffer[..][head := f.c] == old(buffer[..])[head := f.c];
          buffer[head] := f.c;
          head := i;
          accepted := accepted + [f.c];
        }
      }
    }

    /** Any number of interrupts, between two accesses of the main program. */
    method Interrupts(fs: seq<Frame>)
      requires Valid()
      modifies this`head, this`accepted, buffer
      ensures Valid() && Contents() == Arrive(old(Contents()), fs, size - 1)
    {
      for i := 0 to |fs|
        invariant Valid() && Contents() == Arrive(old(Contents()), fs[..i], size - 1)
      {
        RxComplete(fs[i]);
        ArriveTwice(old(Contents()), fs[..i], [fs[i]], size - 1);
        assert fs[..i] + [fs[i]] == fs[..i + 1];
      }
      assert fs[..|fs|] == fs;
    }

    /** available(): the number of bytes held when the head was loaded. */
    method Available(gap: seq<Frame>) returns (n: nat)
      requires Valid()
      modifies this`head, this`accepted, buffer
      ensures Valid() && Contents() == Arrive(old(Contents()), gap, size - 1)
      ensures n == |old(Contents())|
    {
      RingCount(buffer[..], tail, head);
      var h := head;
      Interrupts(gap);
      var t := tail;
      n := (size + h as int - t) % size;
    }

    /** The comparison that peek() and read() begin with. The compiler may load either
        variable first. */
    method IsEmpty(headFirst: bool, gap: seq<Frame>) returns (empty: bool)
      requires Valid()
      modifies this`head, this`accepted, buffer
      ensures Valid() && Contents() == Arrive(old(Contents()), gap, size - 1)
      ensures empty <==> (if headFirst then old(Contents()) else Contents()) == []
    {
      RingCount(buffer[..], tail, head);
      if headFirst {
        var h := head;
        Interrupts(gap);
        var t := tail;
        empty := h == t;
      } else {
        var t := tail;
        Interrupts(gap);
        var h := head;
        empty := h == t;
        RingCount(buffer[..], tail, head);
      }
    }

    /** The byte at the tail: load the tail, then the slot. */
    method LoadFirst(gap: seq<Frame>) returns (c: u8)
      requires Valid() && Contents() != []
      modifies this`head, this`accepted, buffer
      ensures Valid() && Contents() == Arrive(old(Contents()), gap, size - 1)
      ensures c == Contents()[0]
    {
      var t := tail;
      Interrupts(gap);
      RingCount(buffer[..], tail, head);
      Pop(buffer[..], tail, head);
      c := buffer[t];
    }

    /** peek(): -1 or the oldest byte, and the queue only grows meanwhile. */
    method Peek(headFirst: bool, gaps: seq<seq<Frame>>) returns (c: int)
      requires Valid() && |gaps| == 3
      modifies this`head, this`accepted, buffer
      ensures Valid() && old(Contents()) <= Contents()
      ensures c == -1 <==> (if headFirst then old(Contents()) else Arrive(old(Contents()), gaps[0], size - 1)) == []
      ensures c != -1 ==>
                && Contents() == Arrive(old(Contents()), gaps[0] + gaps[1] + gaps[2], size - 1)
                && Contents() != [] && c == Contents()[0]
    {
      var empty := IsEmpty(headFirst, gaps[0]);
      if empty {
        c := -1;
      } else {
        Interrupts(gaps[1]);
        ArriveTwice(old(Contents()), gaps[0], gaps[1], size - 1);
        ArriveTwice(old(Contents()), gaps[0] + gaps[1], gaps[2], size - 1);
        c := LoadFirst(gaps[2]);
      }
    }

    /** The rest of read(): load the byte, then advance the tail. */
    method TakeFirst(g1: seq<Frame>, g2: seq<Frame>, g3: seq<Frame>) returns (c: u8)
      requires Valid() && Contents() != []
      modifies this`head, this`tail, this`accepted, this`taken, buffer
      ensures Valid() && taken == old(taken) + [c]
      ensures [c] + Contents() == Arrive(old(Contents()), g1 + g2 + g3, size - 1)
    {
      c := LoadFirst(g1);
      Interrupts(g2);
      var t := tail;
      Interrupts(g3);
      ArriveTwice(old(Contents()), g1, g2, size - 1);
      ArriveTwice(old(Contents()), g1 + g2, g3, size - 1);
      Dequeue(t, c);
    }

    /** The store that makes the slot free again. */
    method Dequeue(t: u8, ghost c: u8)
      requires Valid() && t == tail && Contents() != [] && c == Contents()[0]
      modifies this`tail, this`taken
      ensures Valid() && taken == old(taken) + [c] && [c] + Contents() == old(Contents())
    {
      RingCount(buffer[..], tail, head);
      Pop(buffer[..], tail, head);
      SuccessorIsModulus(t, size);
      hide Ring, Successor, Wrap8;
      tail := Wrap8(t + 1) % size;
      taken := taken + [c];
    }

    /** read(): -1, or the oldest byte, which leaves the queue at the last store. Bytes
        that arrive in any of the five gaps are queued behind it. */
    method Read(headFirst: bool, gaps: seq<seq<Frame>>) returns (c: int)
      requires Valid() && |gaps| == 5
      modifies this`head, this`tail, this`accepted, this`taken, buffer
      ensures Valid()
      ensures c == -1 <==> (if headFirst then old(Contents()) else Arrive(old(Contents()), gaps[0], size - 1)) == []
      ensures c == -1 ==> taken == old(taken) && Contents() == Arrive(old(Contents()), gaps[0], size - 1)
      ensures c != -1 ==>
                && 0 <= c < 0x100 && taken == old(taken) + [c]
                && [c] + Contents() == Arrive(old(Contents()), gaps[0] + gaps[1] + (gaps[2] + gaps[3] + gaps[4]),
                    size - 1)
    {
      var empty := IsEmpty(headFirst, gaps[0]);
      if empty {
        c := -1;
      } else {
        Interrupts(gaps[1]);
        ArriveTwice(old(Contents()), gaps[0], gaps[1], size - 1);
        ArriveTwice(old(Contents()), gaps[0] + gaps[1], gaps[2] + gaps[3] + gaps[4], size - 1);
        c := TakeFirst(gaps[2], gaps[3], gaps[4]);
      }
    }

    /** end(), once the receiver is off: what was held is discarded. */
    method End()
      requires Valid()
      modifies this`head, this`taken
      ensures Valid() && Contents() == [] && taken == accepted
    {
      head := tail;
      taken := accepted;
    }
  }

  /** availableForWrite(): the free slots of the transmit ring, which keeps one empty. */
  method AvailableForWrite(a: seq<u8>, head: u8, tail: u8) returns (n: int)
    requires head < |a| && tail < |a|
    ensures n + |Ring(a, tail, head)| + 1 == |a|
  {
    if head >= tail {
      n := |a| - 1 - head + tail;
    } else {
      n := tail - head - 1;
    }
  }
}

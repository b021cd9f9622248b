// device/io_queue.c with device/keyboard.c: the 64-slot ring between the keyboard interrupt and one reader.

module IoQueue {
  import opened Disk

  const BUF_SIZE: nat := 64

  /** next_pos */
  function Next(pos: nat): (p: nat)
    ensures p < 64
  {
    (pos + 1) % BUF_SIZE
  }

  /** Number of slots in use. */
  function Used(head: nat, tail: nat): nat
    requires head < BUF_SIZE && tail < BUF_SIZE
  {
    if tail <= head then head - tail else head + BUF_SIZE - tail
  }

  /** The slot i places behind the tail. */
  function At(tail: nat, i: nat): (k: nat)
    ensures k < 64
  {
    (tail + i) % 64
  }

  /** The bytes between tail and head, oldest first. */
  function Ring(bytes: seq<Byte>, head: nat, tail: nat): (s: seq<Byte>)
    requires |bytes| == 64 && head < BUF_SIZE && tail < BUF_SIZE
    ensures |s| == Used(head, tail) && forall i: nat :: i < |s| ==> s[i] == bytes[At(tail, i)]
  {
    seq<Byte>(Used(head, tail), i requires 0 <= i < Used(head, tail) => bytes[At(tail, i)])
  }

  datatype ReadResult = Sleeps | Byte_(value: Byte)

  /**
   * The queue, whether ioq->consumer is set, and whether the reader is blocked; `accepted` and `taken` record what went
   * in and came out.  Each method is one stretch of code with interrupts off.
   */
  class Keyboard {
    const buf: array<Byte>
    var head: nat
    var tail: nat
    var consumer: bool
    var blocked: bool
    ghost var accepted: seq<Byte>
    ghost var taken: seq<Byte>

    /** io_queue_init */
    constructor ()
      ensures Valid() && fresh(buf) && accepted == [] && taken == [] && !blocked
    {
      buf := new Byte[64](_ => 0);
      head, tail, consumer, blocked := 0, 0, false, false;
      accepted, taken := [], [];
    }

    /** The bytes in the ring, oldest first. */
    ghost function Held(): (s: seq<Byte>)
      requires buf.Length == 64 && head < 64 && tail < 64
      reads this, buf
      ensures |s| == Used(head, tail)
    {
      Ring(buf[..], head, tail)
    }

    /**
     * What was taken is a prefix of what was accepted, the ring holds the rest, and a recorded consumer is blocked with
     * the queue empty.
     */
    ghost predicate Valid()
      reads this, buf
    {
      && buf.Length == 64 && head < 64 && tail < 64
      && accepted == taken + Held() && |Held()| <= 63
      && (consumer <==> blocked) && (consumer ==> head == tail)
    }

    /**
     * intr_keyboard_handler for a character, with ioq_putchar: dropped when the ring is full, else the sleeper is
     * woken.
     */
    method Press(b: Byte) returns (kept: bool)
      requires Valid()
      modifies this, buf
      ensures Valid() && (kept <==> |old(Held())| < 63)
      ensures taken == old(taken) && accepted == old(accepted) + if kept then [b] else []
      ensures kept ==> !blocked && Held() == old(Held()) + [b]
      ensures !kept ==> Held() == old(Held()) && blocked == old(blocked)
    {
      FullMeans(head, tail);
      if Next(head) == tail {
        return false;
      }
      PutRing(buf[..], head, tail, b);
      ghost var bytes := buf[..];
      buf[head] := b;
      assert buf[..] == bytes[head := b];
      head := Next(head);
      accepted := accepted + [b];
      if consumer {
        blocked := false;
        consumer := false;
      }
      return true;
    }

    /** One trip of ioq_getchar by the only reader: take a byte, or record oneself and block. */
    method Get() returns (r: ReadResult)
      requires Valid() && !blocked
      modifies this
      ensures Valid() && accepted == old(accepted)
      ensures r.Sleeps? <==> old(Held()) == []
      ensures r.Sleeps? ==> blocked && taken == old(taken)
      ensures r.Byte_? ==> !blocked && old(Held()) == [r.value] + Held() && taken == old(taken) + [r.value]
    {
      if head == tail {
        assert !consumer;
        consumer := true;
        blocked := true;
        return Sleeps;
      }
      var b := buf[tail];
      TakeRing(buf[..], head, tail);
      assert taken + ([b] + Ring(buf[..], head, Next(tail))) == (taken + [b]) + Ring(buf[..], head, Next(tail));
      tail := Next(tail);
      taken := taken + [b];
      return Byte_(b);
    }
  }

  /** The ring is full exactly when 63 slots are in use. */
  lemma FullMeans(head: nat, tail: nat)
    requires head < 64 && tail < 64
    ensures Next(head) == tail <==> Used(head, tail) == 63
    ensures Used(head, tail) <= 63 && (Used(head, tail) == 0 <==> head == tail)
  {
  }

  /** The slots behind the tail and behind the next one. */
  lemma AtNext(tail: nat, i: nat)
    requires tail < 64 && i < 64
    ensures At(Next(tail), i) == At(tail, i + 1) && At(tail, 0) == tail
  {
  }

  lemma UsedNext(head: nat, tail: nat)
    requires head < 64 && tail < 64
    ensures head != tail ==> Used(head, Next(tail)) == Used(head, tail) - 1
    ensures Next(head) != tail ==> Used(Next(head), tail) == Used(head, tail) + 1
    ensures Used(head, tail) < 64
  {
  }

  lemma AtHead(head: nat, tail: nat, i: nat)
    requires head < 64 && tail < 64 && i <= Used(head, tail)
    ensures At(tail, i) == head <==> i == Used(head, tail)
  {
  }

  /** Writing at the head appends. */
  lemma PutRing(bytes: seq<Byte>, head: nat, tail: nat, b: Byte)
    requires |bytes| == 64 && head < 64 && tail < 64 && Next(head) != tail
    ensures Ring(bytes[head := b], Next(head), tail) == Ring(bytes, head, tail) + [b]
  {
    hide At, Next, Used, Ring;
    UsedNext(head, tail);
    var s, t := Ring(bytes, head, tail), Ring(bytes[head := b], Next(head), tail);
    forall i: nat | i <= |s| ensures t[i] == (s + [b])[i] {
      AtHead(head, tail, i);
      assert t[i] == bytes[head := b][At(tail, i)];
    }
    assert |t| == |s + [b]|;
  }

  /** Reading at the tail takes the oldest. */
  lemma TakeRing(bytes: seq<Byte>, head: nat, tail: nat)
    requires |bytes| == 64 && head < 64 && tail < 64 && head != tail
    ensures Ring(bytes, head, tail) == [bytes[tail]] + Ring(bytes, head, Next(tail))
  {
    hide At, Next, Used, Ring;
    UsedNext(head, tail);
    var s, t := Ring(bytes, head, tail), Ring(bytes, head, Next(tail));
    AtNext(tail, 0);
    assert s[0] == bytes[At(tail, 0)];
    forall i: nat | i < |t| ensures s[i + 1] == t[i] {
      AtNext(tail, i);
      assert s[i + 1] == bytes[At(tail, i + 1)] && t[i] == bytes[At(Next(tail), i)];
    }
    assert |s| == |[bytes[tail]] + t|;
    forall i: nat | i < |s| ensures s[i] == ([bytes[tail]] + t)[i] {
      if i > 0 {
        assert s[i] == s[(i - 1) + 1] == t[i - 1];
      }
    }
  }
}

/** `fluent::Buffer`: a byte queue in one block of memory that is compacted and grown in place. */
module Buffers {
  import opened Algorithms

  newtype byte = x: int | 0 <= x < 256

  /** The largest size that `roundToPowerOfTwo` can round up, see
      `Algorithms.RoundedIsRightExactly`. */
  const MAX_SIZE := 0x4000_0000

  /** The stack buffer of `readFrom`. */
  const LOCAL_SIZE := 65536

  /** What write(2) does with the unread bytes. */
  datatype WriteResult = Accepted(n: nat) | Interrupted | Failed

  /** What readv(2) delivers. */
  datatype ReadResult = Received(data: seq<byte>) | ReadError

  class Buffer {
    var buf: array<byte>
    var capacity: int
    var r: int
    var w: int

    const initial: nat
    ghost var appended: seq<byte>   // all bytes ever appended
    ghost var consumed: nat         // how many of them were read
    ghost var moved: nat            // bytes moved by reuseIfPossible
    ghost var peak: nat             // largest unread size plus appended size

    ghost predicate Valid()
      reads this, buf
    {
      && capacity == buf.Length
      && 0 <= r <= w <= capacity
      // a FIFO queue: what is unread is what was appended and not yet read
      && consumed <= |appended| && buf[r..w] == appended[consumed..]
      // compaction after reads is paid for by the reads
      && moved + r <= consumed
      // growth is bounded by demand
      && (capacity == initial || capacity < 2 * peak)
    }

    /** The unread bytes. */
    ghost function Contents(): seq<byte>
      requires Valid()
      reads this, buf
    {
      buf[r..w]
    }

    constructor (size: nat)
      ensures Valid() && Contents() == [] && capacity == size && fresh(buf)
      ensures appended == [] && consumed == 0 && moved == 0 && peak == 0
    {
      capacity := size;
      initial := size;
      buf := new byte[size];
      r, w := 0, 0;
      appended, consumed, moved, peak := [], 0, 0, 0;
    }

    function Unread(): int
      reads this
    {
      w - r
    }

    function Unwrite(): int
      reads this
    {
      capacity - w
    }

    function Available(): int
      reads this
    {
      capacity - Unread()
    }

    /** Moves the unread bytes to the front. */
    method Gc()
      requires Valid()
      modifies this`r, this`w, buf
      ensures Valid() && Contents() == old(Contents())
      ensures r == 0 && w == old(w - r)
    {
      if r > 0 {
        var shift := r;
        forall i | 0 <= i < w - shift {
          buf[i] := buf[i + shift];
        }
        w := Unread();
        r := 0;
        assert buf[..w] == old(buf[r..w]);
      }
    }

    /** Compacts when less than a sixteenth is unread and more than a sixteenth was read.  Each byte
        it moves was paid for by a byte read since the last compaction. */
    method ReuseIfPossible()
      requires Valid()
      modifies this`r, this`w, this`moved, buf
      ensures Valid() && Contents() == old(Contents())
      ensures if old(r) == old(w) || (old(Unread()) < capacity / 16 && old(r) > capacity / 16)
              then r == 0 else r == old(r)
      ensures moved - old(moved) <= old(r) - r
    {
      if r == w {
        r, w := 0, 0;
        return;
      }
      var rest := Unread();
      if rest < capacity / 16 && r > capacity / 16 {
        Gc();
        moved := moved + rest;
      }
    }

    /** Takes `n` bytes off the front. */
    method HasRead(n: int)
      requires Valid() && 0 <= n <= Unread()
      modifies this`r, this`w, this`moved, this`consumed, buf
      ensures Valid() && Contents() == old(Contents())[n..]
      ensures consumed == old(consumed) + n && Unread() == old(Unread()) - n
    {
      r := r + n;
      consumed := consumed + n;
      ReuseIfPossible();
    }

    method ExpandTo(size: int)
      requires Valid() && capacity <= size
      requires size < 2 * peak
      modifies this`buf, this`capacity
      ensures Valid() && Contents() == old(Contents()) && capacity == size
      ensures fresh(buf)
    {
      var grown := new byte[size];
      forall i | 0 <= i < buf.Length {
        grown[i] := buf[i];
      }
      assert grown[r..w] == buf[r..w];
      buf := grown;
      capacity := size;
    }

    /** Makes room for `hint` more bytes: compacts, and grows only if that is not enough. */
    method GcFor(hint: nat)
      requires Valid() && Unread() + hint <= MAX_SIZE
      modifies this`r, this`w, this`buf, this`capacity, this`peak, buf
      ensures Valid() && Contents() == old(Contents())
      ensures hint <= Unwrite()
      ensures hint <= old(Unwrite()) ==> buf == old(buf) && r == old(r) && w == old(w)
      ensures capacity == old(capacity) <==> old(Unread()) + hint <= old(capacity)
      ensures peak == if old(peak) < old(Unread()) + hint then old(Unread()) + hint else old(peak)
      ensures buf == old(buf) || fresh(buf)
      ensures capacity == old(capacity)
           || (old(Unread()) + hint > old(capacity) && IsLeastPower(old(Unread()) + hint, capacity))
    {
      if peak < Unread() + hint {
        peak := Unread() + hint;
      }
      if hint <= Unwrite() {
        return;
      }
      Gc();
      if hint > Available() {
        var appendSize := hint - Available();
        var expectSize := buf.Length + appendSize;
        RoundedIsLeast(expectSize);
        var size := RoundToPowerOfTwo(expectSize);
        ExpandTo(size);
      }
    }

    /** Copies bytes to `writeBuffer()` and advances `_w`. */
    method Place(data: seq<byte>)
      requires Valid() && |data| <= Unwrite()
      modifies this`w, this`appended, buf
      ensures Valid() && Contents() == old(Contents()) + data
      ensures w == old(w) + |data| && appended == old(appended) + data
    {
      forall i | 0 <= i < |data| {
        buf[w + i] := data[i];
      }
      assert buf[r..w] == old(buf[r..w]);
      assert buf[w..w + |data|] == data;
      assert buf[r..w + |data|] == buf[r..w] + buf[w..w + |data|];
      w := w + |data|;
      appended := appended + data;
    }

    /** Puts bytes at the end. */
    method Append(data: seq<byte>)
      requires Valid() && Unread() + |data| <= MAX_SIZE
      modifies this`r, this`w, this`buf, this`capacity, this`peak, this`appended, buf
      ensures Valid() && Contents() == old(Contents()) + data
      ensures appended == old(appended) + data
      ensures buf == old(buf) || fresh(buf)
    {
      GcFor(|data|);
      Place(data);
    }

    /** One scatter read: up to `Unwrite()` bytes land in the buffer, the others in a stack buffer
        from which they are appended. */
    method ReadFrom(result: ReadResult) returns (n: int)
      requires Valid()
      requires result.Received? ==> |result.data| <= Unwrite() + LOCAL_SIZE
      requires result.Received? ==> Unread() + |result.data| <= MAX_SIZE
      modifies this`r, this`w, this`buf, this`capacity, this`peak, this`appended, buf
      ensures Valid()
      ensures n == if result.Received? then |result.data| else -1
      ensures Contents() == old(Contents()) + (if result.Received? then result.data else [])
      ensures appended == old(appended) + (if result.Received? then result.data else [])
      ensures buf == old(buf) || fresh(buf)
    {
      var limit := Unwrite();
      match result
      case ReadError =>
        n := -1;
      case Received(data) =>
        n := |data|;
        if n <= limit {
          Place(data);
        } else {
          Spill(data, limit);
        }
    }

    /** The first `limit` bytes fill the buffer, the others come by way of the stack buffer. */
    method Spill(data: seq<byte>, limit: int)
      requires Valid() && limit == Unwrite() < |data| <= limit + LOCAL_SIZE
      requires Unread() + |data| <= MAX_SIZE
      modifies this`r, this`w, this`buf, this`capacity, this`peak, this`appended, buf
      ensures Valid() && Contents() == old(Contents()) + data && appended == old(appended) + data
      ensures buf == old(buf) || fresh(buf)
    {
      var localSize := |data| - limit;
      var local := new byte[LOCAL_SIZE];
      forall i | 0 <= i < localSize {
        local[i] := data[limit + i];
      }
      assert local[..localSize] == data[limit..];
      PlaceThenAppend(data[..limit], local[..localSize]);
      assert data == data[..limit] + data[limit..];
    }

    method PlaceThenAppend(first: seq<byte>, rest: seq<byte>)
      requires Valid() && |first| == Unwrite()
      requires Unread() + |first| + |rest| <= MAX_SIZE
      modifies this`r, this`w, this`buf, this`capacity, this`peak, this`appended, buf
      ensures Valid() && Contents() == old(Contents()) + (first + rest)
      ensures appended == old(appended) + (first + rest)
      ensures buf == old(buf) || fresh(buf)
    {
      Place(first);
      Append(rest);
    }

    /** Writes unread bytes to the socket and drops those the socket has taken; `sent` is what goes
        on the wire.  A failed write throws and changes nothing. */
    method WriteTo(result: WriteResult) returns (thrown: bool, n: int, ghost sent: seq<byte>)
      requires Valid() && (result.Accepted? ==> result.n <= Unread())
      modifies this`r, this`w, this`moved, this`consumed, buf
      ensures Valid() && thrown == result.Failed?
      ensures n == |sent| && n == if result.Accepted? then result.n else 0
      ensures sent + Contents() == old(Contents())
    {
      thrown, n, sent := false, 0, [];
      match result {
        case Accepted(m) => n := m;
        case Interrupted => n := 0;
        case Failed =>
          thrown := true;
          return;
      }
      sent := Contents()[..n];
      HasRead(n);
    }
  }
}

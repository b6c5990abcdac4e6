/** One log record: `Resolver::put` copies the pieces of a message into the buffer, and
    `File::append` writes a drained buffer to the file. */
module LogRecord {

  /** The text of a record: its pieces separated by blanks and closed by a newline. */
  function Line(pieces: seq<string>): string {
    if |pieces| == 0 then ""
    else if |pieces| == 1 then pieces[0] + ['\n']
    else pieces[0] + [' '] + Line(pieces[1..])
  }

  function Total(pieces: seq<string>): nat {
    if |pieces| == 0 then 0 else |pieces[0]| + Total(pieces[1..])
  }

  /** `Resolver::calspace`: total length plus number of pieces. */
  function CalSpace(pieces: seq<string>): (n: nat)
    ensures n == |Line(pieces)|
  {
    LineLength(pieces);
    Total(pieces) + |pieces|
  }

  lemma {:induction false} LineLength(pieces: seq<string>)
    ensures |Line(pieces)| == Total(pieces) + |pieces|
  {
    if |pieces| > 0 {
      LineLength(pieces[1..]);
    }
  }

  /** The first `i` pieces, each with its separator. */
  lemma {:induction false} LineSplits(pieces: seq<string>, i: nat)
    requires i < |pieces|
    ensures Line(pieces) == Spaced(pieces[..i]) + pieces[i]
                            + [if i == |pieces| - 1 then '\n' else ' '] + Line(pieces[i + 1..])
  {
    if i > 0 {
      LineSplits(pieces[1..], i - 1);
      assert pieces[1..][..i - 1] == pieces[..i][1..];
      assert pieces[1..][i..] == pieces[i + 1..];
    } else {
      assert |pieces| == 1 ==> Line(pieces[1..]) == "";
    }
  }

  function Spaced(pieces: seq<string>): string {
    if |pieces| == 0 then "" else pieces[0] + [' '] + Spaced(pieces[1..])
  }

  lemma {:induction false} SpacedAppend(pieces: seq<string>, piece: string)
    ensures Spaced(pieces + [piece]) == Spaced(pieces) + piece + [' ']
  {
    if |pieces| > 0 {
      assert (pieces + [piece])[1..] == pieces[1..] + [piece];
      SpacedAppend(pieces[1..], piece);
    }
  }

  /** `Resolver::put`: writes the record at `buf[at..]`, in exactly `CalSpace` bytes. */
  method Put(pieces: seq<string>, buf: array<char>, at: nat)
    requires at + CalSpace(pieces) <= buf.Length
    modifies buf
    ensures buf[at..at + CalSpace(pieces)] == Line(pieces)
    ensures forall k :: 0 <= k < at || at + CalSpace(pieces) <= k < buf.Length ==> buf[k] == old(buf[k])
  {
    var offset := 0;
    ghost var line := Line(pieces);
    for i := 0 to |pieces|
      invariant offset <= |line|
      invariant offset == if i == |pieces| then |line| else |Spaced(pieces[..i])|
      invariant forall k :: 0 <= k < offset ==> buf[at + k] == line[k]
      invariant forall k :: 0 <= k < at || at + |line| <= k < buf.Length ==> buf[k] == old(buf[k])
    {
      var piece := pieces[i];
      LineSplits(pieces, i);
      SpacedAppend(pieces[..i], piece);
      assert pieces[..i + 1] == pieces[..i] + [piece];
      forall k | 0 <= k < |piece| {
        buf[at + offset + k] := piece[k];
      }
      offset := offset + |piece|;
      if i == |pieces| - 1 {
        buf[at + offset] := '\n';
      } else {
        buf[at + offset] := ' ';
      }
      offset := offset + 1;
    }
  }

  /** `dlog::File`: `written` drives the rolling of files. */
  class File {
    var data: string
    var written: nat

    constructor ()
      ensures data == "" && written == 0
    {
      data, written := "", 0;
    }

    /** `File::append`, for any splitting of the bytes by `write`. */
    method Append(buf: array<char>, count: nat)
      requires count <= buf.Length
      modifies this
      ensures data == old(data) + buf[..count]
      ensures this.written == old(this.written) + count
    {
      var done := 0;
      while done != count
        invariant done <= count
        invariant data == old(data) + buf[..done]
        invariant this.written == old(this.written)
      {
        var remain := count - done;
        var n: nat :| 1 <= n <= remain;
        assert buf[..done + n] == buf[..done] + buf[done..done + n];
        data := data + buf[done..done + n];
        done := done + n;
      }
      this.written := this.written + done;
    }
  }
}

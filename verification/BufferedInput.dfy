/** input.c: the buffered stream that keeps the kernel's file offset recoverable. */
module BufferedInput {

  type Byte = x: int | 0 <= x < 256

  const EOF: int := -1

  /** How the kernel answers reads: how many bytes the n-th call grants, and whether it fails. */
  datatype Kernel = Kernel(grants: nat -> nat, fails: nat -> bool)

  /** What read returns for a file at an offset: -1 for an error, 0 at the end, else a count of at most room. */
  function ReadCount(k: Kernel, call: nat, room: nat, offset: int, size: nat): (nr: int)
    requires room > 0
    ensures -1 <= nr <= room && (nr > 0 ==> offset + nr <= size) && (nr == 0 ==> offset >= size)
  {
    if k.fails(call) then -1
    else if offset >= size then 0
    else
      var most := if room < size - offset then room else size - offset;
      if k.grants(call) == 0 then 1 else if k.grants(call) < most then k.grants(call) else most
  }

  class BufferedStream {
    const file: seq<Byte>
    const kernel: Kernel
    var calls: nat
    var offset: int
    var buffer: array<Byte>
    var used: nat
    var inputp: nat
    var eof: bool
    var error: bool

    /** make_buffered_stream on an open file. */
    constructor (content: seq<Byte>, k: Kernel, size: nat, start: nat)
      requires size > 0
      ensures Valid() && file == content && offset == start && Upcoming() == From(start) && Faithful() && buffer.Length == size
      ensures kernel == k && used == 0 && inputp == 0 && !error && !eof
      ensures fresh(buffer)
    {
      file, kernel, calls, offset := content, k, 0, start;
      buffer := new Byte[size](_ => 0);
      used, inputp, eof, error := 0, 0, false, false;
    }

    ghost predicate Valid()
      reads this, buffer
    {
      buffer.Length > 0 && used <= buffer.Length && inputp <= buffer.Length && offset >= 0
      && (used > 0 ==> inputp <= used <= offset <= |file|)
    }

    function From(position: int): seq<Byte> {
      if 0 <= position <= |file| then file[position..] else []
    }

    /** The characters still to be delivered: what is left in the buffer, and the file behind it. */
    ghost function Upcoming(): seq<Byte>
      requires Valid()
      reads this, buffer
    {
      (if used == 0 then [] else buffer[inputp..used]) + From(offset)
    }

    /** The buffer holds what the file holds in front of the kernel's offset. */
    ghost predicate Faithful()
      requires Valid()
      reads this, buffer
    {
      used > 0 ==> buffer[..used] == file[offset - used..offset]
    }

    /** The logical position: how far the reader has come in the file. */
    ghost function Position(): int
      reads this
    {
      if used == 0 then offset else offset - (used - inputp)
    }

    /** While the buffer is faithful, what comes is the file from the logical position on. */
    lemma FaithfulUpcoming()
      requires Valid() && Faithful() && Position() <= |file|
      ensures Upcoming() == From(Position()) && 0 <= Position()
    {
      if used > 0 {
        assert buffer[inputp..used] == buffer[..used][inputp..];
        assert file[offset - used..offset][inputp..] == file[offset - used + inputp..offset];
      }
    }

    /** b_fill_buffer: the first of the characters read, or EOF. */
    method FillBuffer() returns (c: int)
      requires Valid() && (used == 0 || inputp == used)
      modifies this`calls, this`offset, this`used, this`inputp, this`eof, this`error, buffer
      ensures Valid() && (c == EOF || 0 <= c < 256)
      ensures c != EOF ==> old(Upcoming()) == [c] + Upcoming() && used > 0 && inputp == 1
      ensures c == EOF ==> Upcoming() == old(Upcoming()) && offset == old(offset) && used == 0 && inputp == old(inputp)
      ensures c == EOF && !error ==> eof && old(Upcoming()) == []
      ensures error ==> old(error) || (c == EOF && kernel.fails(old(calls)))
      ensures Faithful() && (c != EOF ==> offset - used == old(offset))
    {
      var nr := ReadCount(kernel, calls, buffer.Length, offset, |file|);
      calls := calls + 1;
      if nr <= 0 {
        used := 0;
        buffer[0] := 0;
        if nr == 0 {
          eof := true;
        } else {
          error := true;
        }
        return EOF;
      }
      c := FirstOfRead(nr);
    }

    /** The end of b_fill_buffer, when nr characters were read. */
    method FirstOfRead(nr: nat) returns (c: Byte)
      requires Valid() && (used == 0 || inputp == used) && 0 < nr <= buffer.Length && offset + nr <= |file|
      modifies this`offset, this`used, this`inputp, buffer
      ensures Valid() && old(Upcoming()) == [c] + Upcoming() && used > 0 && inputp == 1
      ensures Faithful() && offset - used == old(offset)
    {
      ghost var o := offset;
      Fetch(nr);
      FirstOf(file, o, nr);
      offset := offset + nr;
      used, inputp := nr, 0;
      assert buffer[1..used] == buffer[..used][1..];
      c := buffer[inputp];
      inputp := inputp + 1;
    }

    /** The bytes a read delivers. */
    method Fetch(nr: nat)
      requires nr <= buffer.Length && 0 <= offset && offset + nr <= |file|
      modifies buffer
      ensures buffer[..nr] == file[offset..offset + nr]
    {
      forall k | 0 <= k < nr {
        buffer[k] := file[offset + k];
      }
    }

    lemma FirstOf(text: seq<Byte>, o: nat, nr: nat)
      requires 0 < nr && o + nr <= |text|
      ensures text[o..] == [text[o..o + nr][0]] + (text[o..o + nr][1..] + text[o + nr..])
    {
    }

    /** bufstream_getc. */
    method Getc() returns (c: int)
      requires Valid()
      modifies this`calls, this`offset, this`used, this`inputp, this`eof, this`error, buffer
      ensures Valid() && (c == EOF || 0 <= c < 256)
      ensures c != EOF ==> old(Upcoming()) == [c] + Upcoming() && used > 0 && inputp > 0
      ensures c == EOF ==> Upcoming() == old(Upcoming()) && used == 0 && inputp == old(inputp) && offset == old(offset)
      ensures c == EOF && !error ==> eof && old(Upcoming()) == []
      ensures error ==> old(error) || (c == EOF && kernel.fails(old(calls)))
      ensures old(Faithful()) ==> Faithful() && Position() == old(Position()) + if c == EOF then 0 else 1
    {
      if inputp == used || used == 0 {
        c := FillBuffer();
      } else {
        assert buffer[inputp..used] == [buffer[inputp]] + buffer[inputp + 1..used];
        c := buffer[inputp];
        inputp := inputp + 1;
      }
    }

    /** bufstream_ungetc: puts a character back in front of what comes, except when nothing is buffered: after the end of
        the file the character is accepted and lost. */
    method Ungetc(c: int) returns (r: int)
      requires Valid() && (c == EOF || 0 <= c < 256)
      modifies this`inputp, buffer
      ensures Valid() && r == if c == EOF || old(inputp) == 0 then EOF else c
      ensures r == EOF ==> Upcoming() == old(Upcoming()) && inputp == old(inputp) && buffer[..] == old(buffer[..])
      ensures r != EOF ==> inputp == old(inputp) - 1 && Upcoming() == if used > 0 then [c] + old(Upcoming()) else old(Upcoming())
      ensures r != EOF && used > 0 && old(Faithful()) && c == file[old(Position()) - 1] ==> Faithful() && Position() == old(Position()) - 1
    {
      if c == EOF || inputp == 0 {
        return EOF;
      }
      ghost var was, p := buffer[..used], inputp;
      inputp := inputp - 1;
      buffer[inputp] := c;
      if used > 0 {
        assert buffer[..used] == was[p - 1 := c];
        OnePutBack(was, p, c);
        assert buffer[inputp..used] == buffer[..used][p - 1..];
        if was == file[offset - used..offset] {
          assert was[p - 1] == file[offset - used + p - 1];
        }
      }
      r := c;
    }

    lemma OnePutBack(was: seq<Byte>, p: nat, c: Byte)
      requires 0 < p <= |was|
      ensures was[p - 1 := c][p - 1..] == [c] + was[p..]
      ensures was[p - 1] == c ==> was[p - 1 := c] == was
    {
    }

    /** sync_buffered_stream: the kernel's offset becomes the logical position, unless the last read hit the end of the file
        or failed and left inputp where it was: then the offset moves forward by inputp. */
    method Sync()
      requires Valid()
      modifies this`offset, this`used, this`inputp
      ensures Valid() && used == 0 && inputp == 0 && offset == old(offset) - (old(used) - old(inputp))
      ensures offset == old(Position()) <==> old(used) > 0 || old(inputp) == 0
      ensures old(Faithful()) && (old(used) > 0 || old(inputp) == 0) ==> Upcoming() == old(Upcoming()) && Position() == old(Position())
    {
      ghost var f := Faithful();
      if f && used > 0 {
        FaithfulUpcoming();
      }
      var left: int := used - inputp;
      if left != 0 {
        offset := offset - left;
      }
      used, inputp := 0, 0;
    }

    /** Reading to the end, as process does: everything that was to come is delivered, in order and once, unless a read
        fails; then the rest is still to come. */
    method Process() returns (out: seq<Byte>)
      requires Valid() && !error
      modifies this`calls, this`offset, this`used, this`inputp, this`eof, this`error, buffer
      ensures Valid() && old(Upcoming()) == out + Upcoming()
      ensures !error ==> out == old(Upcoming()) && eof
    {
      hide Upcoming;
      hide Faithful;
      hide Position;
      hide Valid;
      out := [];
      ghost var all := Upcoming();
      var c := Getc();
      ghost var rest := all;
      while c != EOF
        invariant Valid() && (c == EOF || 0 <= c < 256) && all == out + rest
        invariant rest == if c == EOF then Upcoming() else [c] + Upcoming()
        invariant c == EOF && !error ==> eof && rest == []
        decreases |rest|, c != EOF
      {
        Shifted(out, c, rest[1..]);
        out := out + [c];
        rest := rest[1..];
        c := Getc();
      }
    }

    lemma Shifted(out: seq<Byte>, c: Byte, rest: seq<Byte>)
      ensures out + ([c] + rest) == (out + [c]) + rest
    {
    }
  }
}

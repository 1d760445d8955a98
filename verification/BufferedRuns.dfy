/** Runs of getc, ungetc and sync on a buffered stream, against a position that is counted apart from the stream. */
module BufferedRuns {
  import opened BufferedInput

  /** Unget puts back the character delivered last and not put back yet. */
  datatype Op = Get | Unget | Sync

  datatype Reply = Char(c: Byte) | NoChar | PutBack | Refused | SyncedAt(offset: int)

  function Step(reply: Reply): int {
    match reply
    case Char(_) => 1
    case PutBack => -1
    case _ => 0
  }

  /** How many characters were delivered and not put back. */
  function Taken(replies: seq<Reply>): int {
    if replies == [] then 0 else Taken(replies[..|replies| - 1]) + Step(replies[|replies| - 1])
  }

  /** The reply to an operation at a position of the file. A character that was just delivered can be put back. */
  ghost predicate Fits(file: seq<Byte>, k: Kernel, position: int, op: Op, reply: Reply, delivered: bool) {
    match op
    case Get =>
      if reply.NoChar? then position >= |file| || exists n: nat :: k.fails(n)
      else 0 <= position < |file| && reply == Char(file[position])
    case Unget => reply == PutBack || (reply == Refused && !delivered)
    case Sync => reply == SyncedAt(position)
  }

  /** The replies fit, each at the position the earlier ones lead to. */
  ghost predicate AllFit(file: seq<Byte>, k: Kernel, start: int, ops: seq<Op>, replies: seq<Reply>) {
    |replies| <= |ops| && forall i :: 0 <= i < |replies| ==> FitsAt(file, k, start, ops[i], replies, i)
  }

  ghost predicate FitsAt(file: seq<Byte>, k: Kernel, start: int, op: Op, replies: seq<Reply>, i: nat)
    requires i < |replies|
  {
    Fits(file, k, start + Taken(replies[..i]), op, replies[i], i > 0 && replies[i - 1].Char?)
  }

  lemma OneMoreFits(file: seq<Byte>, k: Kernel, start: int, ops: seq<Op>, replies: seq<Reply>, reply: Reply)
    requires AllFit(file, k, start, ops, replies) && |replies| < |ops|
    requires Fits(file, k, start + Taken(replies), ops[|replies|], reply, replies != [] && replies[|replies| - 1].Char?)
    ensures AllFit(file, k, start, ops, replies + [reply])
    ensures Taken(replies + [reply]) == Taken(replies) + Step(reply)
  {
    hide Fits;
    hide Taken;
    var more := replies + [reply];
    TakenMore(replies, reply);
    forall i | 0 <= i < |more| ensures FitsAt(file, k, start, ops[i], more, i) {
      assert more[..i] == replies[..i];
      assert i < |replies| ==> FitsAt(file, k, start, ops[i], replies, i);
    }
  }

  lemma TakenMore(replies: seq<Reply>, reply: Reply)
    ensures Taken(replies + [reply]) == Taken(replies) + Step(reply)
  {
    assert (replies + [reply])[..|replies|] == replies;
  }

  /** Before the end of the file: nothing is left over from a read that failed. */
  ghost predicate Running(b: BufferedStream)
    reads b, b.buffer
  {
    b.Valid() && b.Faithful() && (b.used == 0 ==> b.inputp == 0)
  }

  method PerformGet(b: BufferedStream, ghost delivered: bool) returns (reply: Reply)
    requires Running(b) && !b.error
    modifies b, b.buffer
    ensures b.buffer == old(b.buffer) && b.Valid() && b.Faithful()
    ensures reply.Char? ==> Running(b) && !b.error && b.inputp > 0
    ensures reply.Char? || reply.NoChar?
    ensures Fits(b.file, b.kernel, old(b.Position()), Get, reply, delivered)
    ensures b.Position() == old(b.Position()) + Step(reply)
  {
    if b.Position() <= |b.file| {
      b.FaithfulUpcoming();
    }
    ghost var before := b.Upcoming();
    var c := b.Getc();
    reply := if c == EOF then NoChar else Char(c);
    assert c != EOF ==> before[0] == c;
    assert b.error ==> b.kernel.fails(old(b.calls));
  }

  method PerformUnget(b: BufferedStream, got: seq<Byte>, ghost delivered: bool) returns (reply: Reply)
    requires Running(b) && (delivered ==> got != [] && b.inputp > 0)
    requires got != [] ==> 0 < b.Position() <= |b.file| && got[|got| - 1] == b.file[b.Position() - 1]
    modifies b`inputp, b.buffer
    ensures Running(b) && Fits(b.file, b.kernel, old(b.Position()), Unget, reply, delivered)
    ensures reply == if got == [] || old(b.inputp) == 0 then Refused else PutBack
    ensures b.Position() == old(b.Position()) + Step(reply)
  {
    var r := b.Ungetc(if got == [] then EOF else got[|got| - 1]);
    reply := if r == EOF then Refused else PutBack;
  }

  method PerformSync(b: BufferedStream, ghost delivered: bool) returns (reply: Reply)
    requires Running(b)
    modifies b`offset, b`used, b`inputp
    ensures Running(b) && Fits(b.file, b.kernel, old(b.Position()), Sync, reply, delivered) && reply.SyncedAt?
    ensures b.Position() == old(b.Position()) == b.offset
  {
    b.Sync();
    reply := SyncedAt(b.offset);
  }

  /** got holds the characters delivered since start and not put back. */
  ghost predicate Holding(file: seq<Byte>, start: int, got: seq<Byte>) {
    got != [] ==> 0 <= start <= start + |got| <= |file| && got == file[start..start + |got|]
  }

  /** One operation of a run. */
  method Perform(b: BufferedStream, op: Op, got: seq<Byte>, ghost start: int, ghost delivered: bool)
    returns (reply: Reply, next: seq<Byte>)
    requires Running(b) && !b.error && b.Position() == start + |got| && Holding(b.file, start, got)
    requires delivered ==> got != [] && b.inputp > 0
    modifies b, b.buffer
    ensures b.buffer == old(b.buffer) && (!reply.NoChar? ==> Running(b) && !b.error)
    ensures Fits(b.file, b.kernel, start + |got|, op, reply, delivered)
    ensures b.Position() == start + |next| && |next| == |got| + Step(reply) && Holding(b.file, start, next)
    ensures reply.Char? ==> b.inputp > 0
  {
    hide Fits;
    hide Running;
    hide BufferedStream.Position;
    next := got;
    match op
    case Get =>
      reply := PerformGet(b, delivered);
      if reply.Char? {
        next := got + [reply.c];
      }
    case Unget =>
      reply := PerformUnget(b, got, delivered);
      next := if reply.PutBack? then got[..|got| - 1] else got;
    case Sync =>
      reply := PerformSync(b, delivered);
  }

  /** From any position on, with reads as short as the kernel likes: until the end of the file or a failed read, every
      character delivered is the one at the position the replies count, and sync puts the kernel's offset there. */
  method RunOn(b: BufferedStream, ops: seq<Op>) returns (replies: seq<Reply>)
    requires Running(b) && !b.error
    modifies b, b.buffer
    ensures AllFit(b.file, b.kernel, old(b.Position()), ops, replies)
    ensures |replies| < |ops| ==> replies != [] && replies[|replies| - 1].NoChar?
    ensures forall i :: 0 <= i < |replies| - 1 ==> !replies[i].NoChar?
    ensures b.Position() == old(b.Position()) + Taken(replies)
  {
    hide Fits;
    hide AllFit;
    hide Taken;
    hide Running;
    hide Holding;
    replies := [];
    var got: seq<Byte> := [];
    ghost var start := b.Position();
    NothingYet(b.file, b.kernel, start, ops);
    while |replies| < |ops|
      invariant b.buffer == old(b.buffer) && Running(b) && !b.error && |replies| <= |ops|
      invariant AllFit(b.file, b.kernel, start, ops, replies) && forall i :: 0 <= i < |replies| ==> !replies[i].NoChar?
      invariant b.Position() == start + |got| && |got| == Taken(replies) && Holding(b.file, start, got)
      invariant replies != [] && replies[|replies| - 1].Char? ==> got != [] && b.inputp > 0
      decreases |ops| - |replies|
    {
      ghost var delivered := replies != [] && replies[|replies| - 1].Char?;
      var reply;
      reply, got := Perform(b, ops[|replies|], got, start, delivered);
      OneMoreFits(b.file, b.kernel, start, ops, replies, reply);
      replies := replies + [reply];
      if reply.NoChar? {
        return;
      }
    }
  }

  lemma NothingYet(file: seq<Byte>, k: Kernel, start: int, ops: seq<Op>)
    ensures AllFit(file, k, start, ops, []) && Taken([]) == 0 && Holding(file, start, [])
  {
  }

  /** The same for a stream that was just opened, anywhere in the file and with a buffer of any size. */
  method Run(file: seq<Byte>, k: Kernel, size: nat, start: nat, ops: seq<Op>) returns (replies: seq<Reply>, position: int)
    requires size > 0
    ensures AllFit(file, k, start, ops, replies) && position == start + Taken(replies)
    ensures |replies| < |ops| ==> replies != [] && replies[|replies| - 1].NoChar?
    ensures forall i :: 0 <= i < |replies| - 1 ==> !replies[i].NoChar?
  {
    var b := new BufferedStream(file, k, size, start);
    replies := RunOn(b, ops);
    position := if b.used == 0 then b.offset else b.offset - (b.used - b.inputp);
  }

  // ----- behind the end of the file -----

  ghost predicate NeverFails(k: Kernel) {
    forall n: nat :: !k.fails(n)
  }

  /** A file of one character: read it, read its end, sync. The kernel's offset is then 2. */
  method SyncBehindTheEnd(only: Byte, k: Kernel, size: nat) returns (first: int, second: int, offset: int)
    requires size > 0 && NeverFails(k)
    ensures first == only as int && second == EOF && offset == 2
  {
    hide BufferedStream.Valid;
    hide BufferedStream.Faithful;
    hide BufferedStream.Upcoming;
    hide BufferedStream.Position;
    hide NeverFails;
    var b := new BufferedStream([only], k, size, 0);
    first := ReadOnly(b, only);
    second := b.Getc();
    b.Sync();
    offset := b.offset;
  }

  /** A character put back behind the end of the file is accepted and never delivered. */
  method PutBackBehindTheEnd(only: Byte, k: Kernel, size: nat) returns (accepted: int, next: int)
    requires size > 0 && NeverFails(k)
    ensures accepted == only as int && next == EOF
  {
    hide BufferedStream.Valid;
    hide BufferedStream.Faithful;
    hide BufferedStream.Upcoming;
    hide BufferedStream.Position;
    hide NeverFails;
    var b := new BufferedStream([only], k, size, 0);
    var first := ReadOnly(b, only);
    var second := b.Getc();
    accepted := b.Ungetc(first);
    next := b.Getc();
  }

  /** The first read of a file of one character. */
  method ReadOnly(b: BufferedStream, only: Byte) returns (c: int)
    requires b.Valid() && b.Faithful() && b.file == [only] && b.used == 0 && b.offset == 0 && NeverFails(b.kernel) && !b.error
    modifies b, b.buffer
    ensures c == only as int && b.buffer == old(b.buffer) && b.Valid() && b.Faithful() && !b.error
    ensures b.used == b.inputp == b.offset == 1 && b.Upcoming() == []
  {
    ghost var before := b.Upcoming();
    assert before == [only];
    c := b.Getc();
    assert !b.kernel.fails(old(b.calls));
    assert c != EOF && before[0] == c;
    assert b.Upcoming() == before[1..] == [];
    assert |b.Upcoming()| == b.used - b.inputp + |b.From(b.offset)|;
    assert b.offset == 1;
  }
}

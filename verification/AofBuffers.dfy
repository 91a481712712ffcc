/** The buffers of the append-only file as the server updates them: the write
    loop, the flush, and the block list that feeds the rewriting child. */
module AofBuffers {
  import opened AofCodec
  import opened AofRewrite
  import opened AofServer
  import opened Options

  const BLOCK_SIZE: nat := 10 * 1024 * 1024

  /** What one `write` did. */
  datatype Sys = Wrote(n: nat) | Interrupted | Error

  /** `aofrwblock`: the bytes in use and the room left. */
  datatype Block = Block(data: Bytes, free: nat)

  predicate BlockOk(b: Block) { |b.data| + b.free == BLOCK_SIZE }

  ghost function Concat(bs: seq<Block>): Bytes {
    if bs == [] then [] else bs[0].data + Concat(bs[1..])
  }

  lemma {:induction false} ConcatSnoc(bs: seq<Block>, b: Block)
    ensures Concat(bs + [b]) == Concat(bs) + b.data
  {
    if bs == [] {
      assert bs + [b] == [b] && [b][1..] == [];
    } else {
      assert (bs + [b])[1..] == bs[1..] + [b];
      ConcatSnoc(bs[1..], b);
    }
  }

  lemma ConcatLast(bs: seq<Block>)
    requires bs != []
    ensures Concat(bs) == Concat(bs[..|bs| - 1]) + bs[|bs| - 1].data
  {
    assert bs == bs[..|bs| - 1] + [bs[|bs| - 1]];
    ConcatSnoc(bs[..|bs| - 1], bs[|bs| - 1]);
  }

  lemma FillLast(bs: seq<Block>, rest: Bytes, n: nat)
    requires bs != [] && n <= |rest| && n <= bs[|bs| - 1].free
    ensures var last := bs[|bs| - 1];
            Concat(bs[|bs| - 1 := Block(last.data + rest[..n], last.free - n)]) + rest[n..] == Concat(bs) + rest
  {
    var last, front := bs[|bs| - 1], bs[..|bs| - 1];
    var more := Block(last.data + rest[..n], last.free - n);
    assert bs[|bs| - 1 := more] == front + [more];
    ConcatSnoc(front, more);
    ConcatLast(bs);
    assert rest == rest[..n] + rest[n..];
  }

  lemma AddBlock(bs: seq<Block>)
    ensures Concat(bs + [Block([], BLOCK_SIZE)]) == Concat(bs)
  {
    ConcatSnoc(bs, Block([], BLOCK_SIZE));
  }

  lemma SendFront(bs: seq<Block>, n: nat)
    requires bs != [] && n <= |bs[0].data|
    ensures var b := bs[0];
            Concat(bs) == b.data[..n] + Concat(bs[0 := Block(b.data[n..], b.free + n)])
  {
    var b := bs[0];
    assert b.data == b.data[..n] + b.data[n..];
    assert bs[0 := Block(b.data[n..], b.free + n)][1..] == bs[1..];
  }

  lemma DropEmpty(bs: seq<Block>)
    requires bs != [] && bs[0].data == []
    ensures Concat(bs) == Concat(bs[1..])
  {}

  lemma PrintTwo(a: Command, c: Command)
    ensures PrintAll([a, c]) == Print(a) + Print(c)
  {
    PrintAllCons(a, [c]);
    PrintOne(c);
    assert [a] + [c] == [a, c];
  }

  /** The text `feedAppendOnlyFile` builds for a command that needs no
      translation. */
  method FedText(selected: int, db: nat, c: Command) returns (text: Bytes)
    ensures text == PrintAll(Fed(selected, db, c))
  {
    text := [];
    if db != selected {
      PrintTwo(Select(db), c);
      text := CatCommand(text, Select(db));
      assert text == Print(Select(db));
    } else {
      PrintOne(c);
    }
    text := CatCommand(text, c);
  }

  class Buffers {
    var file: Bytes
    var size: nat
    var buf: Bytes
    var blocks: seq<Block>
    var pipe: Bytes
    var stop: bool
    var selectedDb: int

    ghost predicate Valid() reads this { forall i :: 0 <= i < |blocks| ==> BlockOk(blocks[i]) }

    ghost function Pending(): Bytes reads this { Concat(blocks) }

    constructor ()
      ensures Valid() && file == buf == pipe == [] && size == 0 && blocks == [] && !stop && selectedDb == -1
    {
      file, size, buf, blocks, pipe, stop, selectedDb := [], 0, [], [], [], false, -1;
    }

    /** `feedAppendOnlyFile` for a command that needs no translation. */
    method Feed(db: nat, c: Command, on: bool, child: bool)
      requires Valid() && Printable(c)
      modifies this
      ensures Valid() && selectedDb == db
      ensures var text := PrintAll(Fed(old(selectedDb), db, c));
              && buf == (if on then old(buf) + text else old(buf))
              && Pending() == (if child then old(Pending()) + text else old(Pending()))
      ensures file == old(file) && size == old(size) && pipe == old(pipe) && stop == old(stop)
    {
      var text := FedText(selectedDb, db, c);
      selectedDb := db;
      if on { buf := buf + text; }
      if child { RewriteBufferAppend(text); }
    }

    /** `aofWrite`: retry short and interrupted writes until done or an error. */
    method AofWrite(text: Bytes, results: seq<Sys>) returns (nwritten: int)
      modifies this`file
      ensures -1 <= nwritten <= |text|
      ensures nwritten == 0 ==> text == []
      ensures file == if nwritten == -1 then old(file) else old(file) + text[..nwritten]
    {
      var done, k := 0, 0;
      assert text[..0] == [];
      while done < |text|
        invariant 0 <= done <= |text| && k <= |results|
        invariant file == old(file) + text[..done]
        decreases |results| - k
      {
        if k == |results| || results[k].Error? {
          return if done > 0 then done else -1;
        }
        if results[k].Wrote? {
          var n := if results[k].n <= |text| - done then results[k].n else |text| - done;
          file := file + text[done..done + n];
          assert text[..done + n] == text[..done] + text[done..done + n];
          done := done + n;
        }
        k := k + 1;
      }
      return done;
    }

    /** `flushAppendOnlyFile` past the fsync timing, for a policy other than always. */
    method Flush(results: seq<Sys>, truncateWorks: bool) returns (ghost w: nat)
      modifies this`file, this`size, this`buf
      ensures w <= |old(buf)|
      ensures Disk(file, size, buf) == Flushed(old(Disk(file, size, buf)), w, truncateWorks)
    {
      w := 0;
      if |buf| == 0 {
        assert file + buf == file;
        return;
      }
      var nwritten := AofWrite(buf, results);
      w := if nwritten == -1 then 0 else nwritten;
      if nwritten != |buf| {
        if nwritten != -1 && truncateWorks {
          if size <= |file| { file := file[..size]; }
          nwritten := -1;
        }
        if nwritten > 0 {
          size := size + nwritten;
          buf := buf[nwritten..];
        }
        return;
      }
      assert buf[..nwritten] == buf;
      size := size + nwritten;
      buf := [];
    }

    /** `aofRewriteBufferAppend`: fill the last block, then allocate. */
    method RewriteBufferAppend(text: Bytes)
      requires Valid()
      modifies this`blocks
      ensures Valid() && Pending() == old(Pending()) + text
    {
      var rest := text;
      while rest != []
        invariant Valid() && Pending() + rest == old(Pending()) + text
        decreases |rest|, if blocks != [] && blocks[|blocks| - 1].free > 0 then 0 else 1
      {
        if |blocks| > 0 {
          var last := blocks[|blocks| - 1];
          var n := if last.free < |rest| then last.free else |rest|;
          if n > 0 {
            FillLast(blocks, rest, n);
            blocks := blocks[|blocks| - 1 := Block(last.data + rest[..n], last.free - n)];
            rest := rest[n..];
          }
        }
        if rest != [] {
          AddBlock(blocks);
          blocks := blocks + [Block([], BLOCK_SIZE)];
        }
      }
    }

    /** `aofChildWriteDiffData`: send blocks from the front, in pieces of any
        size, until the list is empty, a write makes no progress, or the child
        has asked the parent to stop. */
    method ChildWriteDiffData(results: seq<Sys>) returns (ghost sent: Bytes)
      requires Valid()
      modifies this`blocks, this`pipe
      ensures Valid() && old(Pending()) == sent + Pending() && pipe == old(pipe) + sent
      ensures stop ==> sent == []
    {
      sent := [];
      var k := 0;
      while true
        invariant Valid() && k <= |results|
        invariant old(Pending()) == sent + Pending() && pipe == old(pipe) + sent
        invariant stop ==> sent == []
        decreases |blocks|, |results| - k
      {
        if stop || |blocks| == 0 { return; }
        var b := blocks[0];
        if |b.data| > 0 {
          if k == |results| || !results[k].Wrote? || results[k].n == 0 { return; }
          var n := if results[k].n <= |b.data| then results[k].n else |b.data|;
          k := k + 1;
          var piece := b.data[..n];
          SendFront(blocks, n);
          Assoc(old(pipe), sent, piece);
          pipe := pipe + piece;
          blocks := blocks[0 := Block(b.data[n..], b.free + n)];
          Assoc(sent, piece, Concat(blocks));
          sent := sent + piece;
        }
        if |blocks[0].data| == 0 {
          DropEmpty(blocks);
          blocks := blocks[1..];
        }
      }
    }

    /** `aofRewriteBufferWrite`: append every block to the child's file; any
        short write is a failure. */
    method RewriteBufferWrite(tmp: Bytes, results: seq<Sys>) returns (out: Bytes, count: int)
      ensures count != -1 ==> out == tmp + Pending() && count == |Pending()|
      ensures tmp <= out
    {
      out, count := tmp, 0;
      var k := 0;
      assert tmp + Pending() == tmp + Concat(blocks[0..]);
      for i := 0 to |blocks|
        invariant k <= |results| && tmp <= out && count >= 0
        invariant out + Concat(blocks[i..]) == tmp + Pending() && count == |out| - |tmp|
      {
        var b := blocks[i];
        assert blocks[i..][1..] == blocks[i + 1..];
        if |b.data| > 0 {
          if k == |results| || !results[k].Wrote? || results[k].n < |b.data| {
            if k < |results| && results[k].Wrote? { out := out + b.data[..results[k].n]; }
            return out, -1;
          }
          k := k + 1;
          out := out + b.data;
          count := count + |b.data|;
        }
      }
      assert blocks[|blocks|..] == [];
    }
  }
}

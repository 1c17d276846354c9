/** The output buffer of src/datacrumbs/server/process/compress/zlib_compressor.h.  `deflate` is an
    abstract step that may consume and produce anything its documentation allows. */
module ZlibCompressor {
  import opened Common

  datatype Status = Ok | StreamEnd | Failed

  /** What a call with input and room may do, when `pending` bytes of output are still to come for the
      input taken so far: it consumes input, or else hands out pending bytes; or it fails and does
      nothing. */
  predicate Deflates(avail: nat, room: nat, pending: nat, ret: Status, consumed: nat, out: seq<Byte>, pendingAfter: nat) {
    match ret
    case Ok => consumed <= avail && |out| <= room && (consumed > 0 || (|out| > 0 && pendingAfter < pending))
    case Failed => consumed == 0 && out == [] && pendingAfter == pending
    case StreamEnd => false
  }

  /** What a call that ends the stream may do: reach the end, or fill the room and leave less to come. */
  predicate Finishes(room: nat, pending: nat, ret: Status, out: seq<Byte>, pendingAfter: nat) {
    match ret
    case StreamEnd => |out| <= room
    case Ok => |out| == room && pendingAfter < pending
    case Failed => false
  }

  const UINT := 0x1_0000_0000

  /** What a write was asked to write and how much of it the file system took. */
  datatype Answer = Answer(asked: nat, took: nat)

  /** The bytes short writes have dropped. */
  function Missing(answers: seq<Answer>): int {
    if |answers| == 0 then 0
    else
      var last := answers[|answers| - 1];
      Missing(answers[..|answers| - 1]) + last.asked - last.took
  }

  predicate AllFull(answers: seq<Answer>) {
    forall k | 0 <= k < |answers| :: answers[k].took == answers[k].asked
  }

  /** No answer takes more than it was asked, so nothing is missing if and only if all are full. */
  ghost predicate Answers(answers: seq<Answer>) {
    forall k | 0 <= k < |answers| :: answers[k].took <= answers[k].asked
  }

  lemma {:induction false} MissingExact(answers: seq<Answer>)
    requires Answers(answers)
    ensures Missing(answers) >= 0 && (Missing(answers) == 0 <==> AllFull(answers))
  {
    if |answers| == 0 {
    } else {
      var init, last := answers[..|answers| - 1], answers[|answers| - 1];
      MissingExact(init);
      assert answers == init + [last] && last.took <= last.asked;
    }
  }

  lemma {:induction false} OneMoreAnswer(answers: seq<Answer>, a: Answer)
    ensures Missing(answers + [a]) == Missing(answers) + a.asked - a.took
    ensures Answers(answers) && a.took <= a.asked ==> Answers(answers + [a])
  {
    assert (answers + [a])[..|answers|] == answers;
  }

  /** Every write was of a whole chunk. */
  predicate AllChunks(answers: seq<Answer>, chunk: nat) {
    forall k | 0 <= k < |answers| :: answers[k].asked == chunk
  }

  class ZlibCompression {
    const chunkSize: nat
    const buffer: array<Byte>
    var bufferOffset: nat
    var file: seq<Byte>
    ghost var fed: seq<Byte>       // all input deflate has consumed
    ghost var produced: seq<Byte>  // all output deflate has produced
    var pending: nat               // of the stream: output still to come
    ghost var lost: nat            // bytes short writes have dropped
    ghost var writes: seq<Answer>  // the answers to all writes so far

    /** The buffer has room, and the file and the live part of the buffer are together everything
        produced, but for what the file system has not taken. */
    ghost predicate Valid()
      reads this, buffer
    {
      && 0 < chunkSize < UINT && buffer.Length == chunkSize && bufferOffset < chunkSize
      && Accounted()
    }

    ghost predicate Accounted()
      requires bufferOffset <= buffer.Length
      reads this, buffer
    {
      && Answers(writes) && lost == Missing(writes) && |file| + bufferOffset + lost == |produced|
      && (lost == 0 ==> file + buffer[..bufferOffset] == produced)
    }

    constructor (chunk: nat)
      requires 0 < chunk < UINT
      ensures Valid() && fresh(buffer) && chunkSize == chunk
      ensures file == [] && fed == [] && produced == [] && writes == [] && bufferOffset == 0
    {
      chunkSize := chunk;
      buffer := new Byte[chunk];
      bufferOffset, file, fed, produced, pending, lost, writes := 0, [], [], [], 0, 0, [];
    }

    /** Puts output behind the live part of the buffer. */
    method Receive(out: seq<Byte>)
      requires bufferOffset + |out| <= buffer.Length && Accounted()
      modifies buffer, this`bufferOffset, this`produced
      ensures bufferOffset == old(bufferOffset) + |out| && produced == old(produced) + out && Accounted()
    {
      forall k | 0 <= k < |out| {
        buffer[bufferOffset + k] := out[k];
      }
      assert buffer[..bufferOffset + |out|] == old(buffer[..bufferOffset]) + out;
      produced := produced + out;
      bufferOffset := bufferOffset + |out|;
    }

    /** `deflate` without flushing, on the input that is left. */
    method Deflate(input: seq<Byte>) returns (ret: Status, consumed: nat)
      requires Valid() && |input| > 0
      modifies buffer, this`bufferOffset, this`produced, this`fed, this`pending
      ensures bufferOffset <= chunkSize && Accounted()
      ensures ret == Ok || ret == Failed
      ensures old(produced) <= produced
      ensures consumed <= |input| && fed == old(fed) + input[..consumed]
      ensures ret == Ok && consumed == 0 ==> pending < old(pending)
      ensures ret == Failed ==> bufferOffset == old(bufferOffset) && produced == old(produced) && consumed == 0
    {
      var room := chunkSize - bufferOffset;
      assert Deflates(|input|, room, pending, Ok, 1, [], pending);
      var status: Status, taken: nat, out: seq<Byte>, rest: nat :|
        Deflates(|input|, room, pending, status, taken, out, rest);
      assert Deflates(|input|, room, pending, status, taken, out, rest);
      ret, consumed := status, taken;
      fed, pending := fed + input[..consumed], rest;
      Receive(out);
    }

    /** `fwrite` of the first `n` bytes of the buffer: the file system takes a prefix. */
    method Write(n: nat) returns (took: nat)
      requires n <= buffer.Length
      modifies this`file, this`writes
      ensures took <= n && file == old(file) + buffer[..took] && writes == old(writes) + [Answer(n, took)]
    {
      took :| took <= n;
      file := file + buffer[..took];
      writes := writes + [Answer(n, took)];
    }

    /** One write of the live buffer, unless that is empty; what is not taken is dropped. */
    method WriteChunk()
      requires bufferOffset <= buffer.Length && Accounted()
      modifies this`file, this`bufferOffset, this`lost, this`writes
      ensures bufferOffset == 0 && Accounted()
      ensures if old(bufferOffset) == 0 then writes == old(writes) && file == old(file)
              else exists took: nat ::
                     && writes == old(writes) + [Answer(old(bufferOffset), took)]
                     && took <= old(bufferOffset) && file == old(file) + old(buffer[..bufferOffset])[..took]
    {
      if bufferOffset > 0 {
        var took := Write(bufferOffset);
        OneMoreAnswer(old(writes), Answer(bufferOffset, took));
        MissingExact(old(writes));
        Dropped(old(file), buffer[..bufferOffset], took, produced);
        assert buffer[..took] == buffer[..bufferOffset][..took];
        assert writes == old(writes) + [Answer(old(bufferOffset), took)];
        lost := lost + (bufferOffset - took);
        bufferOffset := 0;
        assert file + buffer[..0] == file;
      }
    }

    /** Feeds the data to deflate, whose length is cast to 32 bits first: `n` bytes are fed, all that the
        cast leaves exactly when deflate does not fail, and so all of the data exactly when moreover its
        length fits. */
    method Compress(data: seq<Byte>) returns (ok: bool, ghost n: nat)
      requires Valid()
      modifies buffer, this
      ensures Valid() && old(produced) <= produced
      ensures AllChunks(old(writes), chunkSize) ==> AllChunks(writes, chunkSize)
      ensures n <= |data| % UINT && fed == old(fed) + data[..n]
      ensures ok <==> n == |data| % UINT
      ensures fed == old(fed) + data <==> ok && |data| < 0x1_0000_0000
    {
      var avail, next := |data| % UINT, 0;
      while avail > 0
        invariant Valid() && old(produced) <= produced
        invariant AllChunks(old(writes), chunkSize) ==> AllChunks(writes, chunkSize)
        invariant 0 <= avail && next + avail == |data| % UINT && fed == old(fed) + data[..next]
        decreases avail, pending
      {
        var ret, consumed := Deflate(data[next..next + avail]);
        Prefixes(data, next, avail, consumed);
        if ret != Ok && ret != StreamEnd {
          assert |fed| == |old(fed)| + next;
          return false, next;
        }
        next, avail := next + consumed, avail - consumed;
        if bufferOffset == chunkSize {
          WriteChunk();
        }
      }
      assert |fed| == |old(fed)| + next;
      assert next == |data| ==> data[..next] == data;
      return true, next;
    }

    /** One call of `deflate` that ends the stream. */
    method Finish() returns (ret: Status)
      requires Valid()
      modifies buffer, this`bufferOffset, this`produced, this`pending
      ensures bufferOffset <= chunkSize && Accounted() && old(produced) <= produced
      ensures ret == StreamEnd || (ret == Ok && bufferOffset == chunkSize && pending < old(pending))
    {
      var room := chunkSize - bufferOffset;
      assert Finishes(room, pending, StreamEnd, [], 0);
      var status: Status, out: seq<Byte>, rest: nat :| Finishes(room, pending, status, out, rest);
      assert Finishes(room, pending, status, out, rest);
      ret, pending := status, rest;
      Receive(out);
    }

    /** Ends the stream and empties the buffer: the file is then everything deflate has produced if and
        only if every write was full.  All but the last were of whole chunks. */
    method Flush()
      requires Valid()
      modifies buffer, this
      ensures Valid() && bufferOffset == 0 && fed == old(fed) && old(produced) <= produced
      ensures file == produced <==> AllFull(writes)
      ensures AllChunks(old(writes), chunkSize) && |writes| > 0 ==> AllChunks(writes[..|writes| - 1], chunkSize)
    {
      pending := *;  // ending the stream adds output of its own
      var ret := Ok;
      while ret != StreamEnd
        invariant Valid() && old(produced) <= produced && fed == old(fed)
        invariant AllChunks(old(writes), chunkSize) ==> AllChunks(writes, chunkSize)
        invariant ret != Failed
        decreases ret == Ok, pending
      {
        ret := Finish();
        if bufferOffset == chunkSize {
          WriteChunk();
        }
      }
      if bufferOffset > 0 {
        WriteChunk();
      }
      MissingExact(writes);
    }

    method Finalize()
      requires Valid()
      modifies buffer, this
      ensures Valid() && bufferOffset == 0 && fed == old(fed)
      ensures file == produced <==> AllFull(writes)
      ensures AllChunks(old(writes), chunkSize) && |writes| > 0 ==> AllChunks(writes[..|writes| - 1], chunkSize)
    {
      Flush();
    }
  }

  lemma {:induction false} Dropped(file: seq<Byte>, live: seq<Byte>, took: nat, produced: seq<Byte>)
    requires took <= |live|
    ensures |file + live[..took]| + (|live| - took) == |file| + |live|
    ensures file + live == produced && took == |live| ==> file + live[..took] == produced
  {
  }

  lemma {:induction false} Prefixes(data: seq<Byte>, next: nat, avail: nat, consumed: nat)
    requires next + avail <= |data| && consumed <= avail
    ensures data[..next + consumed] == data[..next] + data[next..next + avail][..consumed]
  {
  }

  /** What the 32-bit length leaves of a piece. */
  function Cast(piece: seq<Byte>): seq<Byte> { piece[..|piece| % UINT] }

  function CastAll(pieces: seq<seq<Byte>>): seq<seq<Byte>> {
    seq(|pieces|, k requires 0 <= k < |pieces| => Cast(pieces[k]))
  }

  predicate AllFit(pieces: seq<seq<Byte>>) {
    forall k | 0 <= k < |pieces| :: |pieces[k]| < 0x1_0000_0000
  }

  function Concat(pieces: seq<seq<Byte>>): seq<Byte> {
    if |pieces| == 0 then [] else Concat(pieces[..|pieces| - 1]) + pieces[|pieces| - 1]
  }

  /** Nothing of the pieces is lost if and only if all lengths fit. */
  lemma {:induction false} CastKeepsAll(pieces: seq<seq<Byte>>)
    ensures |Concat(CastAll(pieces))| <= |Concat(pieces)|
    ensures |Concat(CastAll(pieces))| == |Concat(pieces)| <==> AllFit(pieces)
    ensures Concat(CastAll(pieces)) == Concat(pieces) <==> AllFit(pieces)
  {
    if |pieces| == 0 {
    } else {
      var init, last := pieces[..|pieces| - 1], pieces[|pieces| - 1];
      CastKeepsAll(init);
      assert CastAll(pieces)[..|pieces| - 1] == CastAll(init);
      assert pieces == init + [last];
      assert AllFit(pieces) <==> AllFit(init) && |last| < UINT;
      assert |last| < UINT ==> Cast(last) == last;
    }
  }

  /** A start that stops within a piece is shorter than the whole. */
  lemma {:induction false} Unfinished(pieces: seq<seq<Byte>>, i: nat, n: nat)
    requires i < |pieces| && n < |pieces[i]|
    ensures |Concat(pieces[..i])| + n < |Concat(pieces)|
  {
    var m := |pieces| - 1;
    if i < m {
      Unfinished(pieces[..m], i, n);
      assert pieces[..m][..i] == pieces[..i];
    }
  }

  /** A whole session: every piece compressed in turn, then the stream ended.  Unless deflate fails, what
      the lengths leave of the pieces has been fed in order, which is all of them exactly when all lengths
      fit; and the file holds all that deflate made of them exactly when no write was short.  All writes
      but the last are of whole chunks. */
  method Session(pieces: seq<seq<Byte>>, chunk: nat) returns (z: ZlibCompression, ok: bool)
    requires 0 < chunk < UINT
    ensures fresh(z) && z.Valid()
    ensures ok <==> z.fed == Concat(CastAll(pieces))
    ensures ok ==> (z.fed == Concat(pieces) <==> AllFit(pieces))
    ensures ok ==> (z.file == z.produced <==> AllFull(z.writes)) && z.bufferOffset == 0
    ensures ok && |z.writes| > 0 ==> AllChunks(z.writes[..|z.writes| - 1], chunk)
  {
    z := new ZlibCompression(chunk);
    ok := true;
    ghost var all := CastAll(pieces);
    var i := 0;
    while i < |pieces|
      invariant 0 <= i <= |pieces| && z.Valid() && fresh(z) && fresh(z.buffer) && z.fed == Concat(all[..i])
      invariant z.chunkSize == chunk && AllChunks(z.writes, chunk)
    {
      ghost var n;
      ok, n := z.Compress(pieces[i]);
      if !ok {
        Unfinished(all, i, n);
        return;
      }
      assert all[..i + 1][..i] == all[..i];
      i := i + 1;
    }
    assert all[..i] == all;
    CastKeepsAll(pieces);
    z.Finalize();
  }
}

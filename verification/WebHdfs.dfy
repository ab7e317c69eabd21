/** A remote file read over HTTP, with one prefetch buffer that is reused. */
module WebHdfs {
  import opened Numbers

  /** The data node: the file, and what it answers to a request outside the file. */
  datatype Server = Server(content: seq<byte>, error: (int, int) -> seq<byte>)
  {
    /** The body of the answer: the bytes asked for, as far as the file goes. */
    function Respond(offset: int, length: int): (body: seq<byte>) {
      if 0 <= offset <= |content| && 0 <= length then content[offset..Min(offset + length, |content|)]
      else error(offset, length)
    }
  }

  /** The first `length` bytes of the body, or all of it. */
  function Limit(body: seq<byte>, length: int): (data: seq<byte>)
    ensures 0 <= length ==> |data| <= length
  {
    if 0 <= length < |body| then body[..length] else body
  }

  lemma Clipped(server: Server, pos: int, n: nat)
    ensures |Limit(server.Respond(pos, n), n)| <= n
    ensures 0 <= pos <= |server.content| ==> Limit(server.Respond(pos, n), n) == server.Respond(pos, n)
    ensures 0 <= pos <= |server.content| ==> |server.Respond(pos, n)| == Min(pos + n, |server.content|) - pos
    ensures 0 <= pos <= |server.content| ==>
      server.Respond(pos, n) == server.content[pos..Min(pos + n, |server.content|)]
  {
  }

  /** What a buffer shows of the part of the file it starts with. */
  lemma CachedSlice(buffer: seq<byte>, length: nat, content: seq<byte>, from: nat, end: nat, begin: nat, n: nat)
    requires length <= |buffer| && from <= end <= |content| && content[from..end] <= buffer[..length]
    requires begin + n <= end - from
    ensures begin + n <= |buffer|
    ensures buffer[begin..begin + n] == content[from + begin..from + begin + n]
  {
    var part := content[from..end];
    assert |part| <= length;
    var a, b := buffer[begin..begin + n], content[from + begin..from + begin + n];
    forall i | 0 <= i < n ensures a[i] == b[i] {
      var k := begin + i;
      assert a[i] == buffer[k] == buffer[..length][k];
      assert buffer[..length][k] == part[k];
      assert part[k] == content[from + k] == b[i];
    }
  }

  datatype Whence = SEEK_SET | SEEK_CUR | SEEK_END | OTHER

  function SeekTo(pos: int, size: int, offset: int, whence: Whence): int {
    match whence
    case SEEK_SET => offset
    case SEEK_CUR => pos + offset
    case SEEK_END => size + offset
    case OTHER => pos
  }

  /** The length that a read at `pos` asks for: -1 stands for the rest of the file. */
  function Wanted(pos: int, size: int, length: int): int {
    if length == -1 then size - pos else length
  }

  const TWENTY_MIB: nat := 0x140_0000

  class WebHdfsFile {
    const server: Server
    const size: int
    var offset: int
    var readBytes: int
    var prefetchBuffer: array?<byte>
    var prefetchOffset: int
    var prefetchLength: int

    /** The front of the buffer is what the server answered; what is behind it may be of any age. */
    ghost predicate Valid()
      reads this, prefetchBuffer
    {
      && size == |server.content|
      && (prefetchOffset >= 0 ==>
            && prefetchBuffer != null && 0 <= prefetchLength <= prefetchBuffer.Length
            && Fetched() <= prefetchBuffer[..prefetchLength])
    }

    ghost function Fetched(): seq<byte>
      reads this
    {
      Limit(server.Respond(prefetchOffset, prefetchLength), prefetchLength)
    }

    /** Whether a read is served from the buffer. */
    predicate Hit(pos: int, length: int)
      reads this
    {
      prefetchOffset >= 0 && pos >= prefetchOffset && pos + length <= prefetchOffset + prefetchLength
    }

    constructor (s: Server)
      ensures Valid() && server == s && offset == 0 && prefetchOffset == -1 && prefetchBuffer == null && readBytes == 0
    {
      server, size, offset, readBytes := s, |s.content|, 0, 0;
      prefetchBuffer, prefetchOffset, prefetchLength := null, -1, -1;
    }

    constructor Copy(orig: WebHdfsFile)
      requires orig.Valid()
      ensures Valid() && server == orig.server && offset == orig.offset
      ensures prefetchOffset == -1 && prefetchBuffer == null && readBytes == 0
    {
      server, size, offset, readBytes := orig.server, orig.size, orig.offset, 0;
      prefetchBuffer, prefetchOffset, prefetchLength := null, -1, -1;
    }

    /** Another handle on the file, at the same offset; neither handle's reads affect the other. */
    method Clone() returns (f: WebHdfsFile)
      requires Valid()
      ensures fresh(f) && f.Valid() && f.server == server && f.offset == offset
      ensures f.prefetchBuffer == null && f.prefetchOffset == -1 && f.readBytes == 0
    {
      f := new WebHdfsFile.Copy(this);
    }

    method Seek(to: int, whence: Whence) returns (at: int)
      requires Valid()
      modifies `offset
      ensures Valid() && at == offset == SeekTo(old(offset), size, to, whence)
      ensures whence.SEEK_SET? ==> offset == to
      ensures whence.SEEK_CUR? ==> offset - old(offset) == to
      ensures whence.SEEK_END? ==> offset - |server.content| == to
      ensures whence.OTHER? ==> offset == old(offset)
    {
      match whence {
        case SEEK_SET => offset := to;
        case SEEK_CUR => offset := offset + to;
        case SEEK_END => offset := size + to;
        case OTHER =>
      }
      at := offset;
    }

    method Prefetch(from: int, length: nat)
      requires Valid()
      modifies `prefetchBuffer, `prefetchOffset, `prefetchLength, prefetchBuffer
      ensures Valid() && prefetchOffset == from && prefetchLength == length
      ensures prefetchBuffer == old(prefetchBuffer) || fresh(prefetchBuffer)
      ensures prefetchBuffer == old(prefetchBuffer) <==>
        old(prefetchBuffer) != null && length <= old(prefetchBuffer).Length
      // all the answer does not overwrite stays in a buffer that is reused
      ensures prefetchBuffer != null && length <= prefetchBuffer.Length
      ensures prefetchBuffer == old(prefetchBuffer) ==>
        prefetchBuffer[..] == Fetched() + old(if prefetchBuffer == null then [] else prefetchBuffer[..])[|Fetched()|..]
    {
      if prefetchBuffer == null || length > prefetchBuffer.Length {
        prefetchBuffer := new byte[Max(TWENTY_MIB, length)];
      }
      var body := Limit(server.Respond(from, length), length);
      forall i | 0 <= i < |body| {
        prefetchBuffer[i] := body[i];
      }
      prefetchOffset := from;
      prefetchLength := length;
    }

    /**
     Reads at the offset and moves it. Inside the file the data is the file's. Where the request runs
     past the end, the data stops at the end of the file exactly when it does not come from the buffer.
     */
    method Read(length: int) returns (data: seq<byte>)
      requires Valid() && (offset > size ==> length != -1) && length >= -1
      modifies `offset, `readBytes
      ensures var n := Wanted(old(offset), size, length);
        && Valid() && offset == old(offset) + n && readBytes == old(readBytes) + n
        && (0 <= old(offset) <= size ==>
              (data == server.Respond(old(offset), n) <==> old(offset) + n <= size || !Hit(old(offset), n)))
        && |data| <= n && (Hit(old(offset), n) ==> |data| == n)
      // inside the file, in bytes of the file: -1 asks for all that is left
      ensures length == -1 && 0 <= old(offset) <= size ==> data == server.content[old(offset)..] && offset == size
      ensures 0 <= length && 0 <= old(offset) && old(offset) + length <= size ==>
        data == server.content[old(offset)..old(offset) + length] && offset == old(offset) + length
    {
      hide Server.Respond, Limit;
      var pos := offset;
      var n := Wanted(pos, size, length);
      offset := offset + n;
      readBytes := readBytes + n;
      if prefetchOffset >= 0 {
        if pos >= prefetchOffset && pos + n <= prefetchOffset + prefetchLength {
          var begin := pos - prefetchOffset;
          data := prefetchBuffer[begin..begin + n];
          Clipped(server, pos, n);
          if 0 <= pos && pos + n <= size {
            HitIsFile(pos, n);
          }
          return;
        }
      }
      data := Limit(server.Respond(pos, n), n);
      Clipped(server, pos, n);
    }

    /** Inside the file the buffer has the file's bytes, whatever is behind the part last fetched. */
    lemma HitIsFile(pos: nat, n: nat)
      requires Valid() && Hit(pos, n) && pos + n <= size
      ensures 0 <= pos - prefetchOffset && pos - prefetchOffset + n <= prefetchBuffer.Length
      ensures prefetchBuffer[pos - prefetchOffset..pos - prefetchOffset + n] == server.content[pos..pos + n]
    {
      hide Server.Respond, Limit;
      Clipped(server, prefetchOffset, prefetchLength);
      var buffer, end, begin := prefetchBuffer[..], Min(prefetchOffset + prefetchLength, size), pos - prefetchOffset;
      assert buffer[..prefetchLength] == prefetchBuffer[..prefetchLength];
      CachedSlice(buffer, prefetchLength, server.content, prefetchOffset, end, begin, n);
      assert prefetchBuffer[begin..begin + n] == buffer[begin..begin + n];
    }

    method ReadInto(b: array<byte>) returns (n: nat)
      requires Valid() && b != prefetchBuffer
      modifies `offset, `readBytes, b
      ensures Valid() && offset == old(offset) + b.Length && n <= b.Length && b[n..] == old(b[n..])
      ensures 0 <= old(offset) <= size ==>
        (b[..n] == server.Respond(old(offset), b.Length) <==>
           old(offset) + b.Length <= size || !Hit(old(offset), b.Length))
    {
      var buffer := Read(b.Length);
      n := |buffer|;
      forall i | 0 <= i < n {
        b[i] := buffer[i];
      }
      assert b[..n] == buffer;
    }
  }

  // ---- whole runs

  datatype Op =
    | DoSeek(to: int, whence: Whence)
    | DoPrefetch(from: int, count: nat)
    | DoRead(length: int)
    | DoReadInto(count: nat)
  {
    /** Where the operation leaves the offset. */
    function Moves(pos: int, size: int): int {
      match this
      case DoSeek(to, whence) => SeekTo(pos, size, to, whence)
      case DoPrefetch(_, _) => pos
      case DoRead(length) => pos + Wanted(pos, size, length)
      case DoReadInto(count) => pos + count
    }

    /** A read stays inside the file. */
    predicate Inside(pos: int, size: int) {
      (DoRead? ==> -1 <= length) && (DoRead? || DoReadInto? ==> 0 <= pos <= Moves(pos, size) <= size)
    }
  }

  predicate AllInside(ops: seq<Op>, pos: int, size: int) {
    ops == [] || (ops[0].Inside(pos, size) && AllInside(ops[1..], ops[0].Moves(pos, size), size))
  }

  /** What the reads of a run give on a plain file; prefetches do not count. */
  function Replay(ops: seq<Op>, pos: int, content: seq<byte>): seq<seq<byte>>
    requires AllInside(ops, pos, |content|)
  {
    if ops == [] then []
    else
      var next := ops[0].Moves(pos, |content|);
      (if ops[0].DoRead? || ops[0].DoReadInto? then [content[pos..next]] else []) + Replay(ops[1..], next, content)
  }

  /** The next read of a run, in bytes of the file: -1 asks for all that is left. */
  lemma ReplayRead(ops: seq<Op>, pos: int, content: seq<byte>)
    requires ops != [] && AllInside(ops, pos, |content|) && (ops[0].DoRead? || ops[0].DoReadInto?)
    ensures 0 <= pos <= |content|
    ensures ops[0] == DoRead(-1) ==>
      AllInside(ops[1..], |content|, |content|)
      && Replay(ops, pos, content) == [content[pos..]] + Replay(ops[1..], |content|, content)
    ensures ops[0] != DoRead(-1) ==>
      var n := if ops[0].DoRead? then ops[0].length else ops[0].count;
      && 0 <= n <= |content| - pos && AllInside(ops[1..], pos + n, |content|)
      && Replay(ops, pos, content) == [content[pos..pos + n]] + Replay(ops[1..], pos + n, content)
  {
    assert content[pos..|content|] == content[pos..];
  }

  /** A seek or a prefetch gives nothing; the seek counts from the start, from here or from the end. */
  lemma ReplayMove(ops: seq<Op>, pos: int, content: seq<byte>)
    requires ops != [] && AllInside(ops, pos, |content|) && (ops[0].DoSeek? || ops[0].DoPrefetch?)
    ensures var next :=
        if ops[0].DoPrefetch? || ops[0].whence.OTHER? then pos
        else ops[0].to + if ops[0].whence.SEEK_SET? then 0 else if ops[0].whence.SEEK_CUR? then pos else |content|;
      AllInside(ops[1..], next, |content|) && Replay(ops, pos, content) == Replay(ops[1..], next, content)
  {
  }

  /** One operation; `data` is what a read returns. */
  method Perform(f: WebHdfsFile, op: Op) returns (data: seq<byte>)
    requires f.Valid() && op.Inside(f.offset, f.size)
    modifies f, f.prefetchBuffer
    ensures f.Valid() && f.offset == op.Moves(old(f.offset), f.size)
    ensures f.prefetchBuffer == old(f.prefetchBuffer) || fresh(f.prefetchBuffer)
    ensures op.DoRead? || op.DoReadInto? ==> data == f.server.content[old(f.offset)..f.offset]
    ensures op == DoRead(-1) ==> f.offset == |f.server.content|
    ensures op.DoRead? && op.length != -1 ==> f.offset == old(f.offset) + op.length
    ensures op.DoReadInto? ==> f.offset == old(f.offset) + op.count
  {
    data := [];
    match op {
      case DoSeek(to, whence) =>
        var _ := f.Seek(to, whence);
      case DoPrefetch(from, count) =>
        f.Prefetch(from, count);
      case DoRead(length) =>
        data := f.Read(length);
      case DoReadInto(count) =>
        var b := new byte[count];
        var n := f.ReadInto(b);
        data := b[..n];
    }
  }

  /** Over any run of operations whose reads are inside the file, the reads are those of a plain file. */
  method PerformAll(f: WebHdfsFile, ops: seq<Op>) returns (outs: seq<seq<byte>>)
    requires f.Valid() && AllInside(ops, f.offset, f.size)
    modifies f, f.prefetchBuffer
    ensures f.Valid() && outs == Replay(ops, old(f.offset), f.server.content)
  {
    outs := [];
    for i := 0 to |ops|
      invariant f.Valid() && AllInside(ops[i..], f.offset, f.size)
      invariant f.prefetchBuffer == old(f.prefetchBuffer) || fresh(f.prefetchBuffer)
      invariant Replay(ops, old(f.offset), f.server.content) == outs + Replay(ops[i..], f.offset, f.server.content)
    {
      assert ops[i..][0] == ops[i] && ops[i..][1..] == ops[i + 1..];
      var data := Perform(f, ops[i]);
      if ops[i].DoRead? || ops[i].DoReadInto? {
        outs := outs + [data];
      }
    }
  }

  /** A request past the end of a three-byte file, served from the buffer: four bytes come back, not one. */
  method PastTheEnd(error: (int, int) -> seq<byte>) returns (data: seq<byte>)
    ensures |data| == 4 && Server([1, 2, 3], error).Respond(2, 4) == [3]
  {
    var f := new WebHdfsFile(Server([1, 2, 3], error));
    f.Prefetch(0, 8);
    var _ := f.Seek(2, SEEK_SET);
    data := f.Read(4);
  }
}

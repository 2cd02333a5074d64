/** Sources and sinks (src/libutil/serialise.cc) as objects whose position or
    contents change with every call. Each reading loop is proved against the
    reader of the same name in Serialise. */
module Streams {
  import opened Bytes
  import opened Serialise

  class Sink {
    var data: bytes

    constructor ()
      ensures data == []
    {
      data := [];
    }

    method Write(d: bytes)
      modifies this
      ensures data == old(data) + d
    {
      data := data + d;
    }

    method WriteNum(n: nat)
      modifies this
      ensures data == old(data) + EncodeNum(n)
    {
      Write(EncodeNum(n));
    }

    method WritePadding(len: nat)
      modifies this
      ensures data == old(data) + Zeros(PadLength(len))
    {
      if len % 8 != 0 {
        Write(Zeros(8 - len % 8));
      } else {
        assert data == data + Zeros(0);
      }
    }

    /** `sink << s`. The ghost `k` is what the caller writes next. */
    method WriteString(s: bytes, ghost k: bytes)
      modifies this
      ensures data + k == old(data) + EncodeString(s, k)
    {
      WriteNum(|s|);
      Write(s);
      WritePadding(|s|);
      assert data + k == old(data) + EncodeString(s, k);
    }
  }

  class Source {
    const data: bytes
    var pos: nat

    ghost predicate Valid()
      reads this
    {
      pos <= |data|
    }

    function Remaining(): bytes
      requires Valid()
      reads this
    {
      data[pos..]
    }

    constructor (data: bytes)
      ensures Valid() && this.data == data && pos == 0
    {
      this.data, pos := data, 0;
    }

    /** `read`: between one and `len` bytes, or end of file. A source may return
        less than it was asked for. */
    method Read(len: nat) returns (chunk: bytes)
      requires Valid() && len > 0
      modifies this
      ensures Valid() && old(Remaining()) == chunk + Remaining() && |chunk| <= len
      ensures chunk == [] <==> old(Remaining()) == []
    {
      if pos == |data| {
        return [];
      }
      var n: nat :| 1 <= n <= len && pos + n <= |data|;
      chunk := data[pos..pos + n];
      pos := pos + n;
    }

    /** `operator()(buf, len)`: read until the buffer is full. */
    method ReadExact(len: nat) returns (buf: bytes, ok: bool)
      requires Valid()
      modifies this
      ensures Valid()
      ensures ReadBytes(old(Remaining()), len) == if ok then Ok(buf, Remaining()) else Bad
    {
      buf, ok := [], true;
      while |buf| < len
        invariant Valid() && old(Remaining()) == buf + Remaining() && |buf| <= len
      {
        var chunk := Read(len - |buf|);
        if chunk == [] {
          ok := false;
          return;
        }
        buf := buf + chunk;
      }
    }

    method GetNum() returns (n: nat, ok: bool)
      requires Valid()
      modifies this
      ensures Valid()
      ensures ReadNum(old(Remaining())) == if ok then Ok(n, Remaining()) else Bad
    {
      var buf;
      buf, ok := ReadExact(8);
      n := FromLittleEndian(buf);
    }

    method GetPadding(len: nat) returns (ok: bool)
      requires Valid()
      modifies this
      ensures Valid()
      ensures ReadPadding(old(Remaining()), len) == if ok then Ok(Zeros(PadLength(len)), Remaining()) else Bad
    {
      ok := true;
      if len % 8 != 0 {
        var zero;
        zero, ok := ReadExact(8 - len % 8);
        ok := ok && zero == Zeros(8 - len % 8);
      } else {
        assert ReadPadding(Remaining(), len) == Ok(Zeros(0), Remaining());
      }
    }

    method GetString(max: nat) returns (s: bytes, ok: bool)
      requires Valid()
      modifies this
      ensures Valid()
      ensures ReadString(old(Remaining()), max) == if ok then Ok(s, Remaining()) else Bad
    {
      s := [];
      var len;
      len, ok := GetNum();
      if !ok { return; }
      if len > max { ok := false; return; }
      s, ok := ReadExact(len);
      if !ok { return; }
      ok := GetPadding(len);
    }

    /** `skip`: discard `len` bytes in bounded pieces. */
    method Skip(len: nat) returns (ok: bool)
      requires Valid()
      modifies this
      ensures Valid()
      ensures match ReadBytes(old(Remaining()), len)
              case Bad => !ok
              case Ok(_, k) => ok && Remaining() == k
    {
      var left: nat := len;
      ghost var gone: bytes := [];
      ok := true;
      while left != 0
        invariant Valid() && old(Remaining()) == gone + Remaining() && |gone| + left == len
      {
        var chunk := Read(Min(left, 8192));
        if chunk == [] {
          ok := false;
          return;
        }
        left := left - |chunk|;
        gone := gone + chunk;
      }
    }
  }
}

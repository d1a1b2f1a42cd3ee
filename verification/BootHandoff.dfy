/** Assembling BootInfo in its buffer, and what the kernel parses out of it. */
module BootHandoff {
  import opened Manifest
  import opened BootTlv
  import opened BootAlloc

  const BUFFER_SIZE: nat := 16384
  const MAX_REGIONS: nat := 256

  // ---- writing into the buffer --------------------------------------------

  /** The bytes with some replaced from an offset on. */
  function Over(s: seq<nat>, at: nat, data: seq<nat>): (r: seq<nat>)
    requires at + |data| <= |s|
    ensures |r| == |s|
  {
    s[..at] + data + s[at + |data|..]
  }

  lemma OverTwice(s: seq<nat>, at: nat, a: seq<nat>, b: seq<nat>)
    requires at + |a| + |b| <= |s|
    ensures Over(Over(s, at, a), at + |a|, b) == Over(s, at, a + b)
  {
  }

  /** Byte by byte forwards. The source may be the same buffer, further on. */
  method CopyIn(buffer: array<nat>, dest: nat, data: array<nat>, src: nat, length: nat)
    requires dest + length <= buffer.Length && src + length <= data.Length && (data == buffer ==> dest <= src)
    modifies buffer
    ensures buffer[..] == Over(old(buffer[..]), dest, old(data[src..src + length]))
  {
    ghost var before, d := buffer[..], data[src..src + length];
    for i := 0 to length
      invariant forall k {:trigger buffer[k]} :: 0 <= k < buffer.Length ==>
        buffer[k] == if dest <= k < dest + i then d[k - dest] else before[k]
      invariant data != buffer ==> forall k {:trigger data[k]} :: 0 <= k < data.Length ==> data[k] == old(data[k])
    {
      assert data[src + i] == d[i];
      buffer[dest + i] := data[src + i];
    }
  }

  method ZeroFill(buffer: array<nat>, at: nat, n: nat)
    requires at + n <= buffer.Length
    modifies buffer
    ensures buffer[..] == Over(old(buffer[..]), at, Zeros(n))
  {
    ghost var before := buffer[..];
    for i := 0 to n
      invariant forall k {:trigger buffer[k]} :: 0 <= k < buffer.Length ==>
        buffer[k] == if at <= k < at + i then 0 else before[k]
    {
      buffer[at + i] := 0;
    }
  }

  method Store(buffer: array<nat>, off: nat, n: nat, k: nat)
    requires off + k <= buffer.Length
    modifies buffer
    ensures buffer[..] == Over(old(buffer[..]), off, LE(n, k))
  {
    WriteLE(buffer, off, n, k);
  }

  method TlvHead(buffer: array<nat>, at: nat, kind: nat, length: nat)
    requires at + TLV_HEADER <= buffer.Length
    modifies buffer
    ensures buffer[..] == Over(old(buffer[..]), at, LE(kind, 2) + LE(0, 2) + LE(length, 4))
  {
    hide LE;
    ghost var b := buffer[..];
    Store(buffer, at, kind, 2);
    Store(buffer, at + 2, 0, 2);
    OverTwice(b, at, LE(kind, 2), LE(0, 2));
    Store(buffer, at + 4, length, 4);
    OverTwice(b, at, LE(kind, 2) + LE(0, 2), LE(length, 4));
  }

  /** Header, data copied forwards, zero padding. */
  method WriteTlv(buffer: array<nat>, at: nat, kind: nat, data: array<nat>, src: nat, length: nat)
    requires at + TLV_HEADER + Align8(length) <= buffer.Length && src + length <= data.Length
    requires data == buffer ==> at + TLV_HEADER <= src
    modifies buffer
    ensures buffer[..] == Over(old(buffer[..]), at, TlvBytes(Tlv(kind, old(data[src..src + length]))))
  {
    hide LE, Align8, Zeros, Over, TlvBytes;
    ghost var b, d := buffer[..], data[src..src + length];
    ghost var h := LE(kind, 2) + LE(0, 2) + LE(length, 4);
    TlvHead(buffer, at, kind, length);
    if data == buffer {
      assert d == b[src..src + length] && data[src..src + length] == buffer[..][src..src + length];
      OverKeeps(b, at, h, src, length);
    }
    assert data[src..src + length] == d;
    CopyIn(buffer, at + TLV_HEADER, data, src, length);
    OverTwice(b, at, h, d);
    ZeroFill(buffer, at + TLV_HEADER + length, Align8(length) - length);
    OverTwice(b, at, h + d, Zeros(Align8(length) - length));
    Joined(Tlv(kind, d));
  }

  lemma Joined(t: Tlv)
    ensures LE(t.kind, 2) + LE(0, 2) + LE(|t.data|, 4) + t.data + Zeros(Align8(|t.data|) - |t.data|) == TlvBytes(t)
  {
  }

  lemma OverKeeps(s: seq<nat>, at: nat, data: seq<nat>, src: nat, n: nat)
    requires at + |data| <= src && src + n <= |s|
    ensures Over(s, at, data)[src..src + n] == s[src..src + n]
  {
  }

  // ---- the builder --------------------------------------------------------

  class Builder {
    const buffer: array<nat>
    var current: nat
    ghost var written: seq<Tlv>
    ghost const arch: nat
    ghost const flags: nat

    ghost predicate Valid()
      reads this, buffer
    {
      && buffer.Length < WORD32 && current == BOOT_HEADER + |AllBytes(written)| <= buffer.Length
      && buffer[..current] == BootHeader(current, arch, flags) + AllBytes(written)
    }

    constructor (buffer: array<nat>, arch: nat, flags: nat)
      requires BOOT_HEADER <= buffer.Length < WORD32
      modifies buffer
      ensures Valid() && this.buffer == buffer && current == BOOT_HEADER && written == [] && this.arch == arch
        && this.flags == flags
    {
      hide LE;
      this.buffer := buffer;
      current := BOOT_HEADER;
      written := [];
      this.arch := arch;
      this.flags := flags;
      new;
      ghost var b := buffer[..];
      var a, c := LE(BOOT_MAGIC, 8), LE(BOOT_VERSION, 2);
      Store(buffer, 0, BOOT_MAGIC, 8);
      Store(buffer, 8, BOOT_VERSION, 2);
      OverTwice(b, 0, a, c);
      Store(buffer, 10, arch, 2);
      OverTwice(b, 0, a + c, LE(arch, 2));
      Store(buffer, 12, BOOT_HEADER, 4);
      OverTwice(b, 0, a + c + LE(arch, 2), LE(BOOT_HEADER, 4));
      Store(buffer, 16, flags, 4);
      OverTwice(b, 0, a + c + LE(arch, 2) + LE(BOOT_HEADER, 4), LE(flags, 4));
      Store(buffer, 20, 0, 4);
      OverTwice(b, 0, a + c + LE(arch, 2) + LE(BOOT_HEADER, 4) + LE(flags, 4), LE(0, 4));
      assert buffer[..] == Over(b, 0, BootHeader(BOOT_HEADER, arch, flags));
    }

    /** One record, if it fits: header, data copied forwards, zero padding. */
    method Add(kind: nat, data: array<nat>, src: nat, length: nat) returns (ok: bool)
      requires Valid() && src + length <= data.Length && length < WORD32 - 8
        && (data == buffer ==> current + TLV_HEADER <= src)
      modifies `current, `written, buffer
      ensures Valid() && (ok <==> old(current) + TLV_HEADER + Align8(length) <= buffer.Length)
      ensures written == old(written) + if ok then [Tlv(kind, old(data[src..src + length]))] else []
      ensures current == old(current) + if ok then TLV_HEADER + Align8(length) else 0
    {
      hide LE, AllBytes, BootHeader, Align8, Zeros, TlvBytes, Over;
      var aligned := Align8(length);
      if current + TLV_HEADER + aligned > buffer.Length { return false; }
      ghost var b, t := buffer[..], Tlv(kind, data[src..src + length]);
      WriteTlv(buffer, current, kind, data, src, length);
      ghost var c := buffer[..];
      Store(buffer, 12, current + TLV_HEADER + aligned, 4);
      Grown(b, c, buffer[..], current, t, written, arch, flags);
      current := current + TLV_HEADER + aligned;
      written := written + [t];
      return true;
    }

    /** The end marker, if it fits. */
    method Finish() returns (total: nat)
      requires Valid()
      modifies buffer
      ensures total == current + if current + TLV_HEADER <= buffer.Length then TLV_HEADER else 0
      ensures buffer[..current] == BootHeader(total, arch, flags) + AllBytes(written)
      ensures total > current ==> Read(buffer[..], current, 2) == TLV_END
    {
      hide LE, AllBytes, BootHeader, Zeros, Read;
      ghost var b := buffer[..];
      total := current;
      if current + TLV_HEADER <= buffer.Length {
        TlvHead(buffer, current, TLV_END, 0);
        total := current + TLV_HEADER;
        ghost var c := buffer[..];
        Store(buffer, 12, total, 4);
        Finished(b, c, buffer[..], current, written, arch, flags);
      }
    }
  }

  lemma HeaderTotal(t: nat, u: nat, arch: nat, flags: nat)
    ensures Over(BootHeader(t, arch, flags), 12, LE(u, 4)) == BootHeader(u, arch, flags)
  {
    hide LE;
  }

  /** A header field changed in front of other bytes. */
  lemma HeaderIn(t: nat, u: nat, arch: nat, flags: nat, rest: seq<nat>)
    ensures Over(BootHeader(t, arch, flags) + rest, 12, LE(u, 4)) == BootHeader(u, arch, flags) + rest
  {
    hide LE, BootHeader;
    HeaderTotal(t, u, arch, flags);
    var h := BootHeader(t, arch, flags);
    assert Over(h + rest, 12, LE(u, 4)) == Over(h, 12, LE(u, 4)) + rest;
  }

  lemma Grown(b: seq<nat>, c: seq<nat>, d: seq<nat>, cur: nat, t: Tlv, ts: seq<Tlv>, arch: nat, flags: nat)
    requires cur == BOOT_HEADER + |AllBytes(ts)| && cur + |TlvBytes(t)| <= |b|
      && b[..cur] == BootHeader(cur, arch, flags) + AllBytes(ts)
    requires c == Over(b, cur, TlvBytes(t)) && d == Over(c, 12, LE(cur + |TlvBytes(t)|, 4))
    ensures
      var next := cur + |TlvBytes(t)|;
      next == BOOT_HEADER + |AllBytes(ts + [t])| && d[..next] == BootHeader(next, arch, flags) + AllBytes(ts + [t])
  {
    hide LE, AllBytes, BootHeader, TlvBytes;
    AllBytesAppend(ts, t);
    var next := cur + |TlvBytes(t)|;
    var all := AllBytes(ts) + TlvBytes(t);
    assert c == BootHeader(cur, arch, flags) + (all + b[next..]);
    HeaderIn(cur, next, arch, flags, all + b[next..]);
  }

  lemma Finished(b: seq<nat>, c: seq<nat>, d: seq<nat>, cur: nat, ts: seq<Tlv>, arch: nat, flags: nat)
    requires cur == BOOT_HEADER + |AllBytes(ts)| && cur + TLV_HEADER <= |b|
      && b[..cur] == BootHeader(cur, arch, flags) + AllBytes(ts)
    requires c == Over(b, cur, LE(TLV_END, 2) + LE(0, 2) + LE(0, 4)) && d == Over(c, 12, LE(cur + TLV_HEADER, 4))
    ensures d[..cur] == BootHeader(cur + TLV_HEADER, arch, flags) + AllBytes(ts) && Read(d, cur, 2) == TLV_END
  {
    hide LE, AllBytes, BootHeader, Read;
    var front, back := BootHeader(cur + TLV_HEADER, arch, flags) + AllBytes(ts),
      LE(0, 2) + LE(0, 4) + b[cur + TLV_HEADER..];
    assert c == BootHeader(cur, arch, flags) + (AllBytes(ts) + LE(TLV_END, 2) + back);
    HeaderIn(cur, cur + TLV_HEADER, arch, flags, AllBytes(ts) + LE(TLV_END, 2) + back);
    assert d == front + LE(TLV_END, 2) + back;
    Pow256Values();
    ReadWritten(front, TLV_END, 2, back);
  }
}

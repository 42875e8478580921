// PodCircularBuffer.h: a ring buffer whose two flags tell equal positions apart.
module CircularBuffer {
  import opened Sequences

  function Min(a: int, b: int): int { if a < b then a else b }

  function Overwrite<T>(s: seq<T>, at: nat, data: seq<T>): (r: seq<T>)
    requires at + |data| <= |s|
    ensures |r| == |s|
  {
    s[..at] + data + s[at + |data|..]
  }

  // What a buffer with the elements s holds between its positions.
  function Between<T>(s: seq<T>, r: nat, w: nat): seq<T>
    requires r <= |s| && w <= |s|
  {
    if r < w then s[r..w] else s[r..] + s[..w]
  }

  lemma Slices<T>(s: seq<T>, at: nat, data: seq<T>)
    requires at + |data| <= |s|
    ensures var t, e := Overwrite(s, at, data), at + |data|;
      t[..at] == s[..at] && t[at..e] == data && t[e..] == s[e..]
  {}

  lemma Cut<T>(s: seq<T>, a: nat, b: nat, c: nat)
    requires a <= b <= c <= |s|
    ensures s[a..c] == s[a..b] + s[b..c]
    ensures s[..c][..b] == s[..b] && s[..c][a..] == s[a..c] && s[a..][b - a..] == s[b..] && s[a..][..b - a] == s[a..b]
  {}

  // Writing behind the data, with room up to the end of the buffer.
  lemma WriteOn<T>(s: seq<T>, r: nat, w: nat, d: seq<T>)
    requires r <= w && w + |d| <= |s| && d != []
    ensures Between(Overwrite(s, w, d), r, w + |d|) == s[r..w] + d
    ensures if r < w then Between(s, r, w) == s[r..w] else s[r..w] == []
  {
    hide Overwrite;
    var t, e := Overwrite(s, w, d), w + |d|;
    Slices(s, w, d);
    Cut(t, r, w, e);
    Cut(t, r, w, w);
    Cut(s, r, w, w);
  }

  // Writing behind the data to the end of the buffer and on from its start.
  lemma WriteAround<T>(s: seq<T>, r: nat, w: nat, d: seq<T>, m: nat)
    requires r <= w <= |s| && m <= r && |d| == |s| - w + m
    ensures Between(Overwrite(Overwrite(s, w, d[..|s| - w]), 0, d[|s| - w..]), r, m) == s[r..w] + d
    ensures if r < w then Between(s, r, w) == s[r..w] else s[r..w] == []
  {
    hide Overwrite;
    var left := |s| - w;
    var u := Overwrite(s, w, d[..left]);
    var t := Overwrite(u, 0, d[left..]);
    Slices(s, w, d[..left]);
    Slices(u, 0, d[left..]);
    assert t[..m] == t[0..m] == d[left..];
    Cut(t, m, r, |s|);
    Cut(u, m, r, |s|);
    assert t[r..] == u[r..];
    Cut(u, r, w, |s|);
    Cut(u, r, w, w);
    Cut(s, r, w, w);
    assert u[r..] == s[r..w] + d[..left];
    Associative(s[r..w], d[..left], d[left..]);
    assert d[..left] + d[left..] == d;
  }

  // Writing between the end of the data and its start.
  lemma WriteInside<T>(s: seq<T>, r: nat, w: nat, d: seq<T>)
    requires w + |d| <= r <= |s|
    ensures var t := Overwrite(s, w, d); t[r..] + t[..w + |d|] == (s[r..] + s[..w]) + d
  {
    hide Overwrite;
    var t, e := Overwrite(s, w, d), w + |d|;
    Slices(s, w, d);
    Cut(t, e, r, |s|);
    Cut(s, e, r, |s|);
    Cut(t, 0, w, e);
    Associative(s[r..], s[..w], d);
    assert t[r..] == s[r..] && t[..e] == s[..w] + d;
  }

  // The first n elements of data that lies between the positions.
  lemma ReadPart<T>(s: seq<T>, r: nat, w: nat, n: nat)
    requires r < w <= |s| && n <= w - r
    ensures var c := Between(s, r, w);
      |c| == w - r && c[..n] == s[r..r + n] && c[n..] == if r + n < w then Between(s, r + n, w) else []
  {}

  // Data that runs past the end of the buffer, read up to before the end.
  lemma ReadNear<T>(s: seq<T>, r: nat, w: nat, n: nat)
    requires w <= r && r + n < |s|
    ensures var c := Between(s, r, w); c[..n] == s[r..r + n] && c[n..] == Between(s, r + n, w)
  {}

  // The same, read to the end and m elements on from the start.
  lemma ReadFar<T>(s: seq<T>, r: nat, w: nat, m: nat, n: nat)
    requires m <= w <= r <= |s| && n == |s| - r + m
    ensures var c := Between(s, r, w);
      |c| == |s| - r + w && c[..n] == s[r..] + s[..m] && c[n..] == if m < w then Between(s, m, w) else []
  {}

  lemma TakeSplit<T>(s: seq<T>, a: nat, c: nat)
    requires a <= c <= |s|
    ensures s[..c][..a] == s[0..a] && s[..c][a..] == s[a..c]
  {}

  lemma DropDrop<T>(s: seq<T>, a: nat, b: nat, c: nat)
    requires a + b == c <= |s|
    ensures s[a..][b..] == s[c..]
  {}

  // memcpy between two arrays
  method Copy<T>(dst: array<T>, to: nat, src: array<T>, from: nat, n: nat)
    requires dst != src && to + n <= dst.Length && from + n <= src.Length
    modifies dst
    ensures dst[..] == Overwrite(old(dst[..]), to, src[from..from + n])
  {
    for i := 0 to n
      invariant dst[..to] == old(dst[..to]) && dst[to + i..] == old(dst[to + i..])
      invariant dst[to..to + i] == src[from..from + i]
    {
      dst[to + i] := src[from + i];
    }
    assert dst[..] == dst[..to] + dst[to..to + n] + dst[to + n..];
  }

  class Buffer<T(0)> {
    const buf: array<T>
    var empty: bool
    var full: bool
    var readPos: int
    var writePos: int

    // Everything write has accepted, without what clear has dropped, and
    // everything read has given.
    ghost var accepted: seq<T>
    ghost var given: seq<T>

    ghost predicate InRange()
      reads `readPos, `writePos
    {
      && 0 <= readPos && 0 <= writePos
      && (if buf.Length > 0 then readPos < buf.Length && writePos < buf.Length else readPos == writePos == 0)
    }

    // Equal positions mean an empty buffer or a full one, never both.
    ghost predicate Flags()
      reads `readPos, `writePos, `empty, `full
    {
      InRange() && !(empty && full) && (readPos == writePos <==> empty || full)
    }

    ghost function Contents(): (s: seq<T>)
      requires InRange()
      reads `readPos, `writePos, `empty, buf
    {
      if empty then [] else Between(buf[..], readPos, writePos)
    }

    ghost predicate Valid()
      reads this, buf
    {
      Flags() && accepted == given + Contents()
    }

    constructor (capacity: nat)
      ensures Valid() && fresh(buf) && buf.Length == capacity && Contents() == [] && given == []
    {
      buf := new T[capacity];
      readPos, writePos, empty, full := 0, 0, true, false;
      accepted, given := [], [];
    }

    method Clear()
      requires Valid()
      modifies this
      ensures Valid() && Contents() == [] && given == old(given)
    {
      readPos, writePos, empty, full := 0, 0, true, false;
      accepted := given;
    }

    method Size() returns (n: int)
      requires Valid()
      ensures n == |Contents()| && 0 <= n <= buf.Length
    {
      if empty {
        n := 0;
      } else if full {
        n := buf.Length;
      } else if readPos < writePos {
        n := writePos - readPos;
      } else {
        n := buf.Length - readPos + writePos;
      }
    }

    // The flags say what they are called; only a buffer without room can be full and hold nothing.
    lemma FlagsExact()
      requires Valid()
      ensures |Contents()| <= buf.Length
      ensures full <==> |Contents()| == buf.Length && !empty
      ensures buf.Length > 0 ==> (empty <==> Contents() == [])
    {}

    // write: as much of src as there is room for.
    method Write(src: array<T>, count: int) returns (n: int)
      requires Valid() && count <= src.Length && src != buf
      modifies this, buf
      ensures Valid()
      ensures n == if count <= 0 then 0 else Min(count, buf.Length - |old(Contents())|)
      ensures 0 <= n && Contents() == old(Contents()) + src[..n]
      ensures accepted == old(accepted) + src[..n] && given == old(given)
    {
      hide Between;
      Sizes();
      if count <= 0 {
        return 0;
      }
      if full {
        return 0;
      }
      Associative(given, Contents(), src[..Min(count, buf.Length - |Contents()|)]);
      if readPos == writePos {
        n := WriteEmpty(src, count);
      } else if readPos < writePos {
        n := WriteWrap(src, count);
      } else {
        n := WriteGap(src, count);
      }
      accepted := accepted + src[..n];
    }

    lemma Sizes()
      requires InRange()
      ensures |Contents()| ==
        if empty then 0
        else if readPos < writePos then writePos - readPos
        else buf.Length - readPos + writePos
    {}

    // The buffer is empty: from the write position to the end, then from the start.
    method WriteEmpty(src: array<T>, count: int) returns (n: int)
      requires Flags() && readPos == writePos && empty && 0 < count <= src.Length && src != buf
      modifies `empty, `full, `writePos, buf
      ensures Flags() && n == Min(count, buf.Length) && Contents() == src[..n]
    {
      hide Overwrite, Between;
      empty := false;
      var left := buf.Length - writePos;
      if left > count {
        WriteOn(buf[..], writePos, writePos, src[..count]);
        Copy(buf, writePos, src, 0, count);
        writePos := writePos + count;
        return count;
      }
      var w := if readPos > count - left then count - left else writePos;
      n := left + w;
      TakeSplit(src[..], left, n);
      WriteAround(buf[..], readPos, writePos, src[..n], w);
      Copy(buf, writePos, src, 0, left);
      writePos := w;
      Copy(buf, 0, src, left, writePos);
      full := writePos == readPos;
    }

    // The data lies before the write position: to the end, then from the start.
    method WriteWrap(src: array<T>, count: int) returns (n: int)
      requires Flags() && readPos < writePos && 0 < count <= src.Length && src != buf
      modifies `empty, `full, `writePos, buf
      ensures Flags() && n == Min(count, buf.Length - |old(Contents())|)
      ensures Contents() == old(Contents()) + src[..n]
    {
      hide Overwrite, Between;
      empty := false;
      var left := buf.Length - writePos;
      if left > count {
        WriteOn(buf[..], readPos, writePos, src[..count]);
        Copy(buf, writePos, src, 0, count);
        writePos := writePos + count;
        full := readPos == writePos;
        return count;
      }
      var w := if readPos >= count - left then count - left else readPos;
      n := left + w;
      TakeSplit(src[..], left, n);
      WriteAround(buf[..], readPos, writePos, src[..n], w);
      Copy(buf, writePos, src, 0, left);
      writePos := w;
      Copy(buf, 0, src, left, writePos);
      full := readPos == writePos;
    }

    // The room lies between the write position and the read position.
    method WriteGap(src: array<T>, count: int) returns (n: int)
      requires Flags() && writePos < readPos && 0 < count <= src.Length && src != buf
      modifies `empty, `full, `writePos, buf
      ensures Flags() && n == Min(count, buf.Length - |old(Contents())|)
      ensures Contents() == old(Contents()) + src[..n]
    {
      hide Overwrite;
      empty := false;
      var left := readPos - writePos;
      WriteInside(buf[..], readPos, writePos, src[..Min(count, left)]);
      if left > count {
        Copy(buf, writePos, src, 0, count);
        writePos := writePos + count;
        full := readPos == writePos;
        return count;
      }
      Copy(buf, writePos, src, 0, left);
      writePos := writePos + left;
      full := readPos == writePos;
      n := left;
    }

    // read: as much as there is, up to count.
    method Read(dst: array<T>, count: int) returns (n: int)
      requires Valid() && count <= dst.Length && dst != buf
      modifies this, dst
      ensures Valid()
      ensures n == if count <= 0 then 0 else Min(count, |old(Contents())|)
      ensures 0 <= n <= |old(Contents())| && dst[..n] == old(Contents())[..n] && dst[n..] == old(dst[..])[n..]
      ensures Contents() == old(Contents())[n..]
      ensures given == old(given) + dst[..n] && accepted == old(accepted)
    {
      hide Between;
      Sizes();
      if count <= 0 {
        return 0;
      }
      if empty {
        return 0;
      }
      ghost var c := Contents();
      full := false;
      if readPos == writePos {
        n := ReadFull(dst, count, c);
      } else if readPos < writePos {
        n := ReadRun(dst, count, c);
      } else {
        n := ReadWrap(dst, count, c);
      }
      Associative(given, c[..n], c[n..]);
      assert c[..n] + c[n..] == c;
      given := given + dst[..n];
    }

    // The buffer is full: from the read position to the end, then from the start.
    method ReadFull(dst: array<T>, count: int, ghost c: seq<T>) returns (n: int)
      requires !empty && !full && readPos == writePos && InRange() && 0 < count <= dst.Length && dst != buf
      requires c == Contents()
      modifies `empty, `readPos, dst
      ensures Flags() && n == Min(count, |c|)
      ensures dst[..n] == c[..n] && dst[n..] == old(dst[..])[n..] && Contents() == c[n..]
    {
      var left := buf.Length - readPos;
      Sizes();
      if left > count {
        ReadBefore(dst, count, c);
        return count;
      }
      n := ReadOver(dst, left, if writePos > count - left then count - left else writePos, c);
    }

    // Data that runs past the end, read up to before the end.
    method ReadBefore(dst: array<T>, count: int, ghost c: seq<T>)
      requires !empty && !full && writePos <= readPos && InRange() && 0 < count <= dst.Length && dst != buf
      requires c == Contents() && readPos + count < buf.Length
      modifies `empty, `readPos, dst
      ensures Flags() && count <= |c|
      ensures dst[..count] == c[..count] && dst[count..] == old(dst[..])[count..] && Contents() == c[count..]
    {
      hide Overwrite, Between;
      Sizes();
      ghost var s := buf[..];
      ReadNear(s, readPos, writePos, count);
      CopyFirst(dst, readPos, count);
      assert buf[..] == s;
      readPos := readPos + count;
      empty := readPos == writePos;
    }

    // The same, read to the end and m elements on from the start.
    method ReadOver(dst: array<T>, left: int, m: int, ghost c: seq<T>) returns (n: int)
      requires !empty && !full && writePos <= readPos && InRange() && dst != buf
      requires c == Contents() && left == buf.Length - readPos && 0 <= m <= writePos
        && 0 <= left <= left + m <= dst.Length
      modifies `empty, `readPos, dst
      ensures Flags() && n == left + m <= |c|
      ensures dst[..n] == c[..n] && dst[n..] == old(dst[..])[n..] && Contents() == c[n..]
    {
      hide Overwrite, Between;
      Sizes();
      ghost var s, r := buf[..], readPos;
      n := left + m;
      DropDrop(dst[..], left, m, n);
      ReadFar(s, r, writePos, m, n);
      CopyFirst(dst, readPos, left);
      readPos := m;
      CopyRest(dst, left, readPos, s[r..]);
      assert buf[..] == s;
      empty := readPos == writePos;
    }

    // The first memcpy of a read.
    method CopyFirst(dst: array<T>, from: nat, n: nat)
      requires dst != buf && from + n <= buf.Length && n <= dst.Length
      modifies dst
      ensures dst[..n] == buf[..][from..from + n] && dst[n..] == old(dst[..])[n..]
    {
      Copy(dst, 0, buf, from, n);
      assert dst[..n] == dst[..][0..n] && dst[n..] == dst[..][n..];
    }

    // The second memcpy of a read that comes to the end of the buffer.
    method CopyRest(dst: array<T>, left: nat, m: nat, ghost a: seq<T>)
      requires dst != buf && m <= buf.Length && left + m <= dst.Length && dst[..left] == a
      modifies dst
      ensures dst[..left + m] == a + buf[..][..m] && dst[left + m..] == old(dst[left..])[m..]
    {
      hide Overwrite;
      ghost var d, b := dst[..], buf[..m];
      assert buf[0..m] == b;
      Slices(d, left, b);
      Copy(dst, left, buf, 0, m);
      Cut(dst[..], 0, left, left + m);
      assert dst[..left + m] == dst[..][..left] + dst[..][left..left + m];
      assert d[..left] == a && d[left..][m..] == d[left + m..];
    }

    // The data lies between the read position and the write position.
    method ReadRun(dst: array<T>, count: int, ghost c: seq<T>) returns (n: int)
      requires !empty && !full && readPos < writePos && InRange() && 0 < count <= dst.Length && dst != buf
      requires c == Contents()
      modifies `empty, `readPos, dst
      ensures Flags() && n == Min(count, |c|)
      ensures dst[..n] == c[..n] && dst[n..] == old(dst[..])[n..] && Contents() == c[n..]
    {
      hide Overwrite, Between;
      var left := writePos - readPos;
      n := if left > count then count else left;
      ghost var s := buf[..];
      ReadPart(s, readPos, writePos, n);
      CopyFirst(dst, readPos, n);
      assert buf[..] == s;
      readPos := readPos + n;
      empty := readPos == writePos;
    }

    // The data runs past the end: to the end, then from the start to the write position.
    method ReadWrap(dst: array<T>, count: int, ghost c: seq<T>) returns (n: int)
      requires !empty && !full && writePos < readPos && InRange() && 0 < count <= dst.Length && dst != buf
      requires c == Contents()
      modifies `empty, `readPos, dst
      ensures Flags() && n == Min(count, |c|)
      ensures dst[..n] == c[..n] && dst[n..] == old(dst[..])[n..] && Contents() == c[n..]
    {
      var left := buf.Length - readPos;
      Sizes();
      if left > count {
        ReadBefore(dst, count, c);
        return count;
      }
      n := ReadOver(dst, left, if writePos >= count - left then count - left else writePos, c);
    }
  }
}

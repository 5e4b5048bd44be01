/** A file that tools build disk images in: bytes, and a position that reads and writes move. */
module DiskFile {
  import opened Bytes

  /** `data` with `b` written over it from `pos`; a gap is filled with zeros. */
  function Written(data: seq<Byte>, pos: nat, b: seq<Byte>): (r: seq<Byte>)
    ensures |r| == if |data| < pos + |b| then pos + |b| else |data|
  {
    var base := PadTo(data, pos);
    base[..pos] + b + (if pos + |b| < |base| then base[pos + |b|..] else [])
  }

  lemma WrittenGives(data: seq<Byte>, pos: nat, b: seq<Byte>)
    ensures Written(data, pos, b)[pos..pos + |b|] == b
  {
  }

  /** A write leaves every stretch it does not touch as it was. */
  lemma WrittenKeeps(data: seq<Byte>, pos: nat, b: seq<Byte>, lo: nat, hi: nat)
    requires lo <= hi <= |data| && (hi <= pos || pos + |b| <= lo)
    ensures |Written(data, pos, b)| >= hi && Written(data, pos, b)[lo..hi] == data[lo..hi]
  {
    var w := Written(data, pos, b);
    forall i | lo <= i < hi
      ensures w[i] == data[i]
    {
    }
    assert w[lo..hi] == data[lo..hi];
  }

  lemma WrittenTwice(data: seq<Byte>, pos: nat, a: seq<Byte>, b: seq<Byte>)
    requires pos + |a| + |b| <= |data|
    ensures Written(Written(data, pos, a), pos + |a|, b) == Written(data, pos, a + b)
  {
  }

  /** Writing back a stretch with a change in it is making the change. */
  lemma WrittenInside(data: seq<Byte>, lo: nat, hi: nat, off: nat, b: seq<Byte>)
    requires lo <= hi <= |data| && off + |b| <= hi - lo
    ensures Written(data, lo, Written(data[lo..hi], off, b)) == Written(data, lo + off, b)
  {
    var s := Written(data[lo..hi], off, b);
    var w, v := Written(data, lo, s), Written(data, lo + off, b);
    assert |s| == hi - lo && |w| == |data| && |v| == |data|;
    forall i | 0 <= i < |data|
      ensures w[i] == v[i]
    {
      if lo <= i < hi {
        assert w[i] == s[i - lo];
        if off <= i - lo < off + |b| {
          assert s[i - lo] == b[i - lo - off];
        } else {
          assert s[i - lo] == data[lo..hi][i - lo];
        }
      }
    }
  }

  lemma WrittenNothing(data: seq<Byte>, pos: nat)
    requires pos <= |data|
    ensures Written(data, pos, []) == data
  {
  }

  /** A short write into an empty stretch leaves it padded with zeros. */
  lemma WrittenPads(data: seq<Byte>, pos: nat, b: seq<Byte>, n: nat)
    requires |b| <= n && pos + n <= |data| && data[pos..pos + n] == Zeros(n)
    ensures Written(data, pos, b)[pos..pos + n] == PadTo(b, n)
  {
    var w := Written(data, pos, b);
    forall i | 0 <= i < n
      ensures w[pos + i] == PadTo(b, n)[i]
    {
      if i >= |b| {
        assert data[pos..pos + n][i] == 0;
        assert w[pos + i] == data[pos + i];
      }
    }
    assert w[pos..pos + n] == PadTo(b, n);
  }

  /** The bytes from `lo` to `hi` that there are. */
  function Cut(data: seq<Byte>, lo: nat, hi: nat): (r: seq<Byte>)
    requires lo <= hi
    ensures |r| == if |data| <= lo then 0 else if |data| <= hi then |data| - lo else hi - lo
  {
    data[if lo < |data| then lo else |data|..if hi < |data| then hi else |data|]
  }

  lemma CutCut(data: seq<Byte>, a: nat, n: nat, c: nat, e: nat)
    requires c <= e <= n
    ensures Cut(Cut(data, a, a + n), c, e) == Cut(data, a + c, a + e)
  {
    var s := Cut(data, a, a + n);
    var r := Cut(s, c, e);
    forall i | 0 <= i < |r|
      ensures r[i] == Cut(data, a + c, a + e)[i]
    {
      assert r[i] == s[c + i];
    }
  }

  lemma Subslice(d: seq<Byte>, a: nat, b: nat, c: nat, e: nat)
    requires a <= b <= |d| && c <= e <= b - a
    ensures d[a..b][c..e] == d[a + c..a + e]
  {
    var s := d[a..b];
    forall i | 0 <= i < e - c
      ensures s[c..e][i] == d[a + c..a + e][i]
    {
      assert s[c..e][i] == s[c + i];
    }
  }

  class ImageFile {
    var data: seq<Byte>
    var pos: nat

    constructor ()
      ensures data == [] && pos == 0
    {
      data, pos := [], 0;
    }

    method Truncate(n: nat)
      modifies this`data
      ensures data == if |old(data)| < n then PadTo(old(data), n) else old(data)[..n]
    {
      data := if |data| < n then PadTo(data, n) else data[..n];
    }

    method Seek(p: nat)
      modifies this`pos
      ensures pos == p
    {
      pos := p;
    }

    method Write(b: seq<Byte>)
      modifies this
      ensures data == Written(old(data), old(pos), b) && pos == old(pos) + |b|
    {
      data := Written(data, pos, b);
      pos := pos + |b|;
    }

    /** Up to `n` bytes, fewer at the end of the file. */
    method Read(n: nat) returns (b: seq<Byte>)
      modifies this`pos
      ensures b == Cut(data, old(pos), old(pos) + n) && pos == old(pos) + |b|
    {
      b := Cut(data, pos, pos + n);
      pos := pos + |b|;
    }
  }
}

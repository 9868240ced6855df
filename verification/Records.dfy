/** Lists of fixed-size records, printed one after the other. */
module Records {
  import opened Words

  function PrintAll<T>(enc: T -> Bytes, xs: seq<T>): Bytes {
    if xs == [] then [] else PrintAll(enc, xs[..|xs| - 1]) + enc(xs[|xs| - 1])
  }

  lemma PrintNext<T>(enc: T -> Bytes, xs: seq<T>, i: nat)
    requires i < |xs|
    ensures PrintAll(enc, xs[..i + 1]) == PrintAll(enc, xs[..i]) + enc(xs[i])
  {
    assert xs[..i + 1][..i] == xs[..i];
  }

  lemma {:induction false} PrintLength<T>(enc: T -> Bytes, xs: seq<T>, size: nat)
    requires forall x :: |enc(x)| == size
    ensures |PrintAll(enc, xs)| == size * |xs|
  {
    if xs != [] {
      PrintLength(enc, xs[..|xs| - 1], size);
      assert size * |xs| == size * (|xs| - 1) + size;
    }
  }

  lemma {:induction false} PrintConcat<T>(enc: T -> Bytes, xs: seq<T>, ys: seq<T>)
    ensures PrintAll(enc, xs + ys) == PrintAll(enc, xs) + PrintAll(enc, ys)
  {
    if ys == [] {
      assert xs + ys == xs;
    } else {
      var m := |ys| - 1;
      PrintConcat(enc, xs, ys[..m]);
      assert (xs + ys)[..|xs| + m] == xs + ys[..m];
      Assoc(PrintAll(enc, xs), PrintAll(enc, ys[..m]), enc(ys[m]));
    }
  }

  /** The record at position k of a list that starts at off. */
  function Slot(off: nat, size: nat, k: nat): nat {
    off + size * k
  }

  /** If each record parses back exactly, so does the list, in both directions. */
  lemma {:induction false} ReadList<T>(d: Bytes, off: nat, size: nat, enc: T -> Bytes, xs: seq<T>, ys: seq<T>)
    requires |xs| == |ys| && forall x :: |enc(x)| == size
    requires forall k :: 0 <= k < |xs| ==> (HasAt(d, Slot(off, size, k), enc(xs[k])) <==> ys[k] == xs[k])
    ensures HasAt(d, off, PrintAll(enc, xs)) <==> off <= |d| && xs == ys
  {
    if xs != [] {
      var n := |xs| - 1;
      ReadList(d, off, size, enc, xs[..n], ys[..n]);
      PrintLength(enc, xs[..n], size);
      HasAppend(d, off, PrintAll(enc, xs[..n]), enc(xs[n]));
      assert xs == xs[..n] + [xs[n]] && ys == ys[..n] + [ys[n]];
    }
  }

  /** The bytes written so far after a prefix p, one field longer. */
  lemma Extend(p: Bytes, b: Bytes, c: Bytes) returns (r: Bytes)
    ensures r == b + c && (p + b) + c == p + r
  {
    Assoc(p, b, c);
    r := b + c;
  }

  /** The bytes found so far at off, one field longer. */
  lemma HasExtend(d: Bytes, off: nat, b: Bytes, c: Bytes) returns (r: Bytes)
    ensures r == b + c
    ensures HasAt(d, off, r) <==> HasAt(d, off, b) && HasAt(d, off + |b|, c)
  {
    HasAppend(d, off, b, c);
    r := b + c;
  }
}

/** Values shared by the whole model: optional values, bytes and chunked contents. */
module Common {

  datatype Option<+T> = None | Some(value: T) {
    function GetOr(default: T): T {
      match this
      case Some(v) => v
      case None => default
    }
  }

  /** One octet, as a Python `bytes` object holds them. */
  newtype byte = x: int | 0 <= x < 256

  type Bytes = seq<byte>

  /** The content a file holds once `chunks` have been written to it one after another. */
  function Concat(chunks: seq<Bytes>): Bytes
  {
    if chunks == [] then [] else chunks[0] + Concat(chunks[1..])
  }

  /** Writing `a` and then `b` leaves what writing `a + b` does: the basis of every chunked write. */
  lemma {:induction false} ConcatAppend(a: seq<Bytes>, b: seq<Bytes>)
    ensures Concat(a + b) == Concat(a) + Concat(b)
  {
    if a == [] {
      assert a + b == b;
    } else {
      assert (a + b)[1..] == a[1..] + b;
      ConcatAppend(a[1..], b);
    }
  }

  /** One more chunk written extends the content by exactly that chunk. */
  lemma ConcatSnoc(chunks: seq<Bytes>, chunk: Bytes)
    ensures Concat(chunks + [chunk]) == Concat(chunks) + chunk
  {
    ConcatAppend(chunks, [chunk]);
    assert Concat([chunk]) == chunk + Concat([]);
  }

  /** A second update of the same key replaces the first. */
  lemma UpdateTwice<K, V>(m: map<K, V>, k: K, a: V, b: V)
    ensures m[k := a][k := b] == m[k := b]
  {
  }

  /** The chunks end up in the file in order: every chunk sits at the offset given by the ones before it. */
  lemma {:induction false} ConcatChunkAt(chunks: seq<Bytes>, k: nat)
    requires k < |chunks|
    ensures var before := Concat(chunks[..k]);
            |before| + |chunks[k]| <= |Concat(chunks)| &&
            Concat(chunks)[|before|..|before| + |chunks[k]|] == chunks[k]
  {
    assert chunks == chunks[..k] + chunks[k..];
    ConcatAppend(chunks[..k], chunks[k..]);
    assert Concat(chunks[k..]) == chunks[k] + Concat(chunks[k + 1..]);
  }
}

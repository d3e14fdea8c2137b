/** Byte streams in pieces, and the records cut from them. */
module Streams {
  import opened Common

  /** A record and the bytes that separated it from the next one. */
  datatype Record = Record(payload: Bytes, separator: Bytes)

  function Flatten(pieces: seq<Bytes>): Bytes {
    if pieces == [] then [] else pieces[0] + Flatten(pieces[1..])
  }

  lemma {:induction false} FlattenNothing(pieces: seq<Bytes>)
    requires |pieces| == 0
    ensures Flatten(pieces) == []
  {
  }

  lemma {:induction false} FlattenTogether(a: seq<Bytes>, b: seq<Bytes>)
    ensures Flatten(a + b) == Flatten(a) + Flatten(b)
    decreases |a|
  {
    if a == [] {
      assert a + b == b;
    } else {
      assert (a + b)[0] == a[0] && (a + b)[1..] == a[1..] + b;
      FlattenTogether(a[1..], b);
    }
  }

  lemma {:induction false} FlattenSnoc(pieces: seq<Bytes>, last: Bytes)
    ensures Flatten(pieces + [last]) == Flatten(pieces) + last
  {
    FlattenTogether(pieces, [last]);
    assert [last][1..] == [] && last + [] == last;
  }
}

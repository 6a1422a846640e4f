/**
 A received segment as lwIP hands it over: a chain of pieces.
 */
module Pbuf {
  import opened Bits

  function Joined(pieces: seq<seq<byte>>): seq<byte> {
    if pieces == [] then [] else Joined(pieces[..|pieces| - 1]) + pieces[|pieces| - 1]
  }

  lemma JoinedOneMore(pieces: seq<seq<byte>>, i: nat)
    requires i < |pieces|
    ensures Joined(pieces[..i + 1]) == Joined(pieces[..i]) + pieces[i]
  {
    assert pieces[..i + 1][..i] == pieces[..i];
  }

  lemma {:induction false} JoinedGrows(pieces: seq<seq<byte>>, i: nat)
    requires i <= |pieces|
    ensures |Joined(pieces[..i])| <= |Joined(pieces)|
    decreases |pieces| - i
  {
    if i < |pieces| {
      JoinedOneMore(pieces, i);
      JoinedGrows(pieces, i + 1);
    } else {
      assert pieces[..i] == pieces;
    }
  }
}

/** A stream and the pieces it is cut into. */
module Pieces {

  function Joined<T>(pieces: seq<seq<T>>): seq<T> {
    if pieces == [] then [] else pieces[0] + Joined(pieces[1..])
  }

  lemma {:induction false} JoinedSnoc<T>(pieces: seq<seq<T>>, i: nat)
    requires i < |pieces|
    ensures Joined(pieces[..i + 1]) == Joined(pieces[..i]) + pieces[i]
    decreases i
  {
    if i == 0 {
      assert pieces[..1] == [pieces[0]] && [pieces[0]][1..] == [] && pieces[..0] == [];
      assert pieces[0] + [] == pieces[0] && [] + pieces[0] == pieces[0];
    } else {
      assert pieces[..i + 1][1..] == pieces[1..][..i] && pieces[..i][1..] == pieces[1..][..i - 1];
      JoinedSnoc(pieces[1..], i - 1);
    }
  }
}

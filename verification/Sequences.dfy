/** Pieces joined into one sequence. */
module Sequences {
  function Join<T>(pieces: seq<seq<T>>): seq<T> {
    if pieces == [] then [] else Join(pieces[..|pieces| - 1]) + pieces[|pieces| - 1]
  }

  lemma JoinNone<T>()
    ensures Join<T>([]) == []
  {
  }

  lemma JoinMore<T>(pieces: seq<seq<T>>, piece: seq<T>)
    ensures Join(pieces + [piece]) == Join(pieces) + piece
  {
    assert (pieces + [piece])[..|pieces|] == pieces;
  }

  lemma JoinOne<T>(piece: seq<T>)
    ensures Join([piece]) == piece
  {
    assert [piece][..0] == [];
  }

  lemma {:induction false} JoinCut<T>(a: seq<seq<T>>, b: seq<seq<T>>)
    ensures Join(a + b) == Join(a) + Join(b)
    decreases |b|
  {
    hide Join;
    if b == [] {
      assert a + b == a;
      JoinNone<T>();
    } else {
      var front, last := b[..|b| - 1], b[|b| - 1];
      JoinCut(a, front);
      JoinMore(a + front, last);
      JoinMore(front, last);
      assert a + b == (a + front) + [last] && b == front + [last];
    }
  }

  /** The first piece comes first. */
  lemma JoinFront<T>(pieces: seq<seq<T>>)
    requires pieces != []
    ensures Join(pieces) == pieces[0] + Join(pieces[1..])
  {
    assert [pieces[0]] + pieces[1..] == pieces;
    JoinCut([pieces[0]], pieces[1..]);
    JoinOne(pieces[0]);
  }
}

/** What SQL LIKE means, as in section 8.5 of ISO/IEC 9075:1992 without ESCAPE: the string can
    be cut into consecutive pieces, one for each element of the pattern. */
module LikePattern {
  import opened Conditions

  predicate Fits(piece: seq<int>, element: int) {
    if element == PERCENT then true
    else |piece| == 1 && (element == UNDERSCORE || piece[0] == element)
  }

  function Glue(pieces: seq<seq<int>>): seq<int> {
    if pieces == [] then [] else pieces[0] + Glue(pieces[1..])
  }

  predicate Cuts(pieces: seq<seq<int>>, s: seq<int>, p: seq<int>) {
    && |pieces| == |p| && Glue(pieces) == s
    && forall i :: 0 <= i < |p| ==> Fits(pieces[i], p[i])
  }

  /** A string the matcher accepts can be cut. */
  lemma {:induction false} MatchCuts(s: seq<int>, p: seq<int>) returns (pieces: seq<seq<int>>)
    requires LikeMatch(s, p)
    ensures Cuts(pieces, s, p)
    decreases |s| + |p|
  {
    if p == [] {
      pieces := [];
    } else if p[0] == PERCENT {
      if LikeMatch(s, p[1..]) {
        var rest := MatchCuts(s, p[1..]);
        pieces := [[]] + rest;
        assert pieces[1..] == rest && [] + Glue(rest) == Glue(rest);
      } else {
        var rest := MatchCuts(s[1..], p);
        pieces := [[s[0]] + rest[0]] + rest[1..];
        assert pieces[1..] == rest[1..];
        assert ([s[0]] + rest[0]) + Glue(rest[1..]) == [s[0]] + (rest[0] + Glue(rest[1..]));
        assert s == [s[0]] + s[1..];
      }
    } else {
      var rest := MatchCuts(s[1..], p[1..]);
      pieces := [[s[0]]] + rest;
      assert pieces[1..] == rest && s == [s[0]] + s[1..];
    }
  }

  /** A string that can be cut is accepted, whichever way the matcher tries first. */
  lemma {:induction false} CutsMatch(pieces: seq<seq<int>>, s: seq<int>, p: seq<int>)
    requires Cuts(pieces, s, p)
    ensures LikeMatch(s, p)
    decreases |s| + |p|
  {
    if p != [] {
      var first, rest := pieces[0], pieces[1..];
      assert forall i :: 0 <= i < |rest| ==> rest[i] == pieces[i + 1] && p[1..][i] == p[i + 1];
      if p[0] != PERCENT {
        assert s[0] == first[0] && s[1..] == Glue(rest);
        CutsMatch(rest, s[1..], p[1..]);
      } else if first == [] {
        assert s == Glue(rest);
        CutsMatch(rest, s, p[1..]);
      } else {
        var shorter := [first[1..]] + rest;
        assert shorter[1..] == rest;
        assert s[1..] == first[1..] + Glue(rest);
        CutsMatch(shorter, s[1..], p);
      }
    }
  }

  /** The matcher decides LIKE. */
  lemma LikeIff(s: seq<int>, p: seq<int>)
    ensures LikeMatch(s, p) <==> exists pieces :: Cuts(pieces, s, p)
  {
    if LikeMatch(s, p) {
      var pieces := MatchCuts(s, p);
    }
    if pieces :| Cuts(pieces, s, p) {
      CutsMatch(pieces, s, p);
    }
  }
}

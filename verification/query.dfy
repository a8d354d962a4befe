/**
  The director's raw-query merge, and an independent reading of a raw
  query as its list of `&`-separated parameters against which the merge is
  checked: the merged query carries the target's parameters, then the
  inbound ones, with nothing dropped or de-duplicated.
 */
module Query {

  /**
    The query-merge law of the director: the target's query comes first,
    the two are joined by `&` only when both are non-empty.
   */
  function MergeQuery(targetQuery: string, query: string): (r: string)
    ensures targetQuery == "" ==> r == query
    ensures query == "" ==> r == targetQuery
    ensures targetQuery != "" && query != "" ==> r == targetQuery + "&" + query
    ensures targetQuery <= r
    ensures |r| >= |query| && r[|r| - |query|..] == query
  {
    if targetQuery == "" || query == "" then
      targetQuery + query
    else
      targetQuery + "&" + query
  }

  /** The pieces of `s` between `&` separators, empty ones included. */
  function Pieces(s: string): (ps: seq<string>)
    ensures |ps| >= 1
    decreases |s|
  {
    if |s| == 0 then
      [""]
    else
      var rest := Pieces(s[1..]);
      if s[0] == '&' then [""] + rest else [[s[0]] + rest[0]] + rest[1..]
  }

  /** Joins pieces back together with `&`. */
  function Join(ps: seq<string>): string
    requires |ps| >= 1
    decreases |ps|
  {
    if |ps| == 1 then ps[0] else ps[0] + "&" + Join(ps[1..])
  }

  /** Drops the empty pieces, as a query parser skips empty `&&` segments. */
  function NonEmpty(ps: seq<string>): (qs: seq<string>)
    ensures forall i :: 0 <= i < |qs| ==> qs[i] != ""
    ensures |qs| <= |ps|
  {
    if ps == [] then []
    else if ps[0] == "" then NonEmpty(ps[1..])
    else [ps[0]] + NonEmpty(ps[1..])
  }

  /** The parameters of a raw query, in order, repeats kept. */
  function Segments(s: string): seq<string>
  {
    NonEmpty(Pieces(s))
  }

  /** Splitting on `&` and joining again gives back the raw query. */
  lemma {:induction false} JoinPieces(s: string)
    ensures Join(Pieces(s)) == s
    decreases |s|
  {
    if |s| > 0 {
      var rest := Pieces(s[1..]);
      JoinPieces(s[1..]);
      if s[0] == '&' {
        assert Pieces(s) == [""] + rest;
        assert ([""] + rest)[1..] == rest;
        if |rest| == 1 {
          assert s == "&" + rest[0];
        } else {
          assert s == "" + "&" + Join(rest);
        }
      } else {
        var ps := [[s[0]] + rest[0]] + rest[1..];
        assert Pieces(s) == ps;
        if |rest| == 1 {
          assert Join(rest) == rest[0];
        } else {
          assert Join(rest) == rest[0] + "&" + Join(rest[1..]);
          assert ps[1..] == rest[1..];
          assert Join(ps) == ([s[0]] + rest[0]) + "&" + Join(rest[1..]);
        }
        assert s == [s[0]] + s[1..];
      }
    }
  }

  /** How `Pieces` treats one leading character. */
  lemma PiecesCons(c: char, t: string)
    ensures c == '&' ==> Pieces([c] + t) == [""] + Pieces(t)
    ensures c != '&' ==> Pieces([c] + t) == [[c] + Pieces(t)[0]] + Pieces(t)[1..]
  {
    assert ([c] + t)[1..] == t;
  }

  /** Gluing a character onto the first piece commutes with appending more pieces. */
  lemma GlueFirst(c: char, x: seq<string>, y: seq<string>)
    requires |x| >= 1
    ensures [[c] + (x + y)[0]] + (x + y)[1..] == ([[c] + x[0]] + x[1..]) + y
  {
    assert (x + y)[0] == x[0];
    assert (x + y)[1..] == x[1..] + y;
  }

  /** Splitting `a & b` splits `a` and `b` separately and concatenates the pieces. */
  lemma {:induction false} PiecesAround(a: string, b: string)
    ensures Pieces(a + "&" + b) == Pieces(a) + Pieces(b)
    decreases |a|
  {
    if |a| == 0 {
      PiecesCons('&', b);
      assert a + "&" + b == ['&'] + b;
    } else {
      var c, t := a[0], a[1..];
      assert a == [c] + t;
      assert a + "&" + b == [c] + (t + "&" + b);
      PiecesAround(t, b);
      PiecesCons(c, t + "&" + b);
      PiecesCons(c, t);
      if c != '&' {
        GlueFirst(c, Pieces(t), Pieces(b));
      }
    }
  }

  lemma {:induction false} NonEmptyConcat(x: seq<string>, y: seq<string>)
    ensures NonEmpty(x + y) == NonEmpty(x) + NonEmpty(y)
    decreases |x|
  {
    if x != [] {
      assert (x + y)[1..] == x[1..] + y;
      NonEmptyConcat(x[1..], y);
    } else {
      assert x + y == y;
    }
  }

  /**
    Read as parameter lists, the merged query is the target's parameters
    followed by the inbound ones: target first, nothing de-duplicated.
   */
  lemma MergeSegments(targetQuery: string, query: string)
    ensures Segments(MergeQuery(targetQuery, query)) == Segments(targetQuery) + Segments(query)
  {
    assert Segments("") == [];
    if targetQuery == "" {
      assert MergeQuery(targetQuery, query) == query;
    } else if query == "" {
      assert MergeQuery(targetQuery, query) == targetQuery;
    } else {
      PiecesAround(targetQuery, query);
      NonEmptyConcat(Pieces(targetQuery), Pieces(query));
    }
  }
}

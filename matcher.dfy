/** The segment matcher `match(pattern, path)` of main.go: decides whether a
    concrete URL path fits a route pattern and collects the named parameters
    that the pattern's `:name` segments capture. */
module Matcher {
  import opened Segments

  datatype Option<T> = None | Some(value: T)

  /** Parameter name to captured path segment. */
  type Params = map<string, string>

  /** What `match` returns: the boolean, and the parameter map, where None
      stands for Go's nil map (returned on the fast path and on failure). */
  datatype MatchResult = MatchResult(matched: bool, params: Option<Params>)

  const Marker: char := ':'

  /** A non-empty pattern segment that starts with ':' names a parameter. */
  predicate IsCapture(piece: string)
  {
    |piece| > 0 && piece[0] == Marker
  }

  /** The parameter name of a capture segment: the segment without its ':'. */
  function Name(piece: string): (name: string)
    requires IsCapture(piece)
    ensures [Marker] + name == piece
  {
    piece[1..]
  }

  /** The pattern segment lets the path segment through: equal segments
      pass as literals, and a capture segment accepts anything. */
  predicate Admits(p: string, x: string)
  {
    p == x || IsCapture(p)
  }

  /** The pattern segment records a parameter: it is a capture segment that
      did not already pass as an equal literal. */
  predicate Records(p: string, x: string)
  {
    p != x && IsCapture(p)
  }

  /** Segment lists of equal length that agree position by position. */
  predicate Fits(ps: seq<string>, xs: seq<string>)
  {
    |ps| == |xs| && forall i :: 0 <= i < |ps| ==> Admits(ps[i], xs[i])
  }

  /** The parameters recorded by a left-to-right walk over the positions
      of `ps` and `xs`, a later capture of the same name overwriting an
      earlier one. */
  function Captures(ps: seq<string>, xs: seq<string>): Params
    requires |ps| == |xs|
    decreases |ps|
  {
    if ps == [] then map[]
    else
      var n := |ps| - 1;
      var m := Captures(ps[..n], xs[..n]);
      if Records(ps[n], xs[n]) then m[Name(ps[n]) := xs[n]] else m
  }

  /** match(pattern, path). */
  function Match(pattern: string, path: string): MatchResult
  {
    if pattern == path then MatchResult(true, None)
    else
      var ps, xs := Split(pattern), Split(path);
      if |ps| != |xs| then MatchResult(false, None)
      else if Fits(ps, xs) then MatchResult(true, Some(Captures(ps, xs)))
      else MatchResult(false, None)
  }

  /** The loop of main.go:91-105 over the split pieces, with its early
      exit; `ps` and `xs` have equal length. */
  method MatchPieces(ps: seq<string>, xs: seq<string>) returns (matched: bool, params: Option<Params>)
    requires |ps| == |xs|
    ensures matched <==> Fits(ps, xs)
    ensures params == if matched then Some(Captures(ps, xs)) else None
  {
    var m: Params := map[];
    for i := 0 to |ps|
      invariant forall j :: 0 <= j < i ==> Admits(ps[j], xs[j])
      invariant m == Captures(ps[..i], xs[..i])
    {
      assert ps[..i + 1][..i] == ps[..i] && xs[..i + 1][..i] == xs[..i];
      if ps[i] == xs[i] {
      } else if |ps[i]| > 0 && ps[i][0] == Marker {
        m := m[ps[i][1..] := xs[i]];
      } else {
        return false, None;
      }
    }
    assert ps[..|ps|] == ps && xs[..|xs|] == xs;
    return true, Some(m);
  }

  /** match(pattern, path) as the source computes it. */
  method MatchPaths(pattern: string, path: string) returns (matched: bool, params: Option<Params>)
    ensures MatchResult(matched, params) == Match(pattern, path)
  {
    if pattern == path {
      return true, None;
    }
    var ps := Split(pattern);
    var xs := Split(path);
    if |ps| != |xs| {
      return false, None;
    }
    matched, params := MatchPieces(ps, xs);
  }

  // ---------------------------------------------------------------------
  // Properties of match

  /** Byte-identical strings match by the fast path, with a nil map. */
  lemma IdenticalMatches(pattern: string, path: string)
    requires pattern == path
    ensures Match(pattern, path) == MatchResult(true, None)
  {
  }

  /** Different segment counts never match, and give a nil map. */
  lemma CountMismatchFails(pattern: string, path: string)
    requires |Split(pattern)| != |Split(path)|
    ensures Match(pattern, path) == MatchResult(false, None)
  {
  }

  /** Segment counts differ exactly when the slash counts do. */
  lemma CountMismatchBySlashes(pattern: string, path: string)
    requires Occurrences(pattern, Slash) != Occurrences(path, Slash)
    ensures Match(pattern, path) == MatchResult(false, None)
  {
    SplitCount(pattern);
    SplitCount(path);
  }

  /** A failed match never carries parameters; a nil map on success means
      the fast path was taken. */
  lemma NilMeansFastPath(pattern: string, path: string)
    ensures !Match(pattern, path).matched ==> Match(pattern, path).params == None
    ensures Match(pattern, path).matched && Match(pattern, path).params == None
            <==> pattern == path
  {
  }

  /** On a different pattern and path, match succeeds exactly when both
      split into the same number of segments and every pattern segment
      equals its path segment or is a capture segment. */
  lemma MatchIffFits(pattern: string, path: string)
    requires pattern != path
    ensures Match(pattern, path).matched <==> Fits(Split(pattern), Split(path))
    ensures Match(pattern, path).matched ==>
              Match(pattern, path).params == Some(Captures(Split(pattern), Split(path)))
  {
  }

  /** An empty pattern segment facing a non-empty path segment, or any
      other literal mismatch, makes match fail. */
  lemma LiteralMismatchFails(pattern: string, path: string, i: nat)
    requires i < |Split(pattern)| && i < |Split(path)|
    requires Split(pattern)[i] != Split(path)[i] && !IsCapture(Split(pattern)[i])
    ensures Match(pattern, path) == MatchResult(false, None)
  {
    assert pattern != path;
  }

  /** The recorded names are exactly the names of the capture segments that
      differ from their path segment. */
  lemma {:induction false} CapturesKeys(ps: seq<string>, xs: seq<string>, k: string)
    requires |ps| == |xs|
    ensures k in Captures(ps, xs) <==>
              exists i :: 0 <= i < |ps| && Records(ps[i], xs[i]) && Name(ps[i]) == k
    decreases |ps|
  {
    if ps != [] {
      var n := |ps| - 1;
      CapturesKeys(ps[..n], xs[..n], k);
      if k in Captures(ps, xs) && !(Records(ps[n], xs[n]) && Name(ps[n]) == k) {
        var i :| 0 <= i < n && Records(ps[..n][i], xs[..n][i]) && Name(ps[..n][i]) == k;
        assert ps[i] == ps[..n][i] && xs[i] == xs[..n][i];
      }
      if exists i :: 0 <= i < |ps| && Records(ps[i], xs[i]) && Name(ps[i]) == k {
        var i :| 0 <= i < |ps| && Records(ps[i], xs[i]) && Name(ps[i]) == k;
        if i < n {
          assert ps[i] == ps[..n][i] && xs[i] == xs[..n][i];
        }
      }
    }
  }

  /** The value recorded under a name is the path segment at the right-most
      position whose capture segment records that name. */
  lemma {:induction false} CapturesValue(ps: seq<string>, xs: seq<string>, i: nat)
    requires |ps| == |xs| && i < |ps|
    requires Records(ps[i], xs[i])
    requires forall j :: i < j < |ps| && Records(ps[j], xs[j]) ==> Name(ps[j]) != Name(ps[i])
    ensures Name(ps[i]) in Captures(ps, xs) && Captures(ps, xs)[Name(ps[i])] == xs[i]
    decreases |ps|
  {
    var n := |ps| - 1;
    if i < n {
      forall j | i < j < n && Records(ps[..n][j], xs[..n][j])
        ensures Name(ps[..n][j]) != Name(ps[..n][i])
      {
        assert ps[..n][j] == ps[j] && xs[..n][j] == xs[j];
      }
      CapturesValue(ps[..n], xs[..n], i);
      assert ps[..n][i] == ps[i] && xs[..n][i] == xs[i];
    }
  }

  /** On success by the slow path, each parameter is the right-most capture
      of its name, and nothing else is recorded. */
  lemma MatchParams(pattern: string, path: string, k: string)
    requires pattern != path && Match(pattern, path).matched
    ensures Match(pattern, path).params.Some?
    ensures k in Match(pattern, path).params.value <==>
              exists i :: 0 <= i < |Split(pattern)| && Records(Split(pattern)[i], Split(path)[i])
                          && Name(Split(pattern)[i]) == k
  {
    MatchIffFits(pattern, path);
    CapturesKeys(Split(pattern), Split(path), k);
  }

  /** On success by the slow path, the value under a name is the path
      segment facing the right-most capture segment of that name. */
  lemma MatchParamValue(pattern: string, path: string, i: nat)
    requires pattern != path && Match(pattern, path).matched
    requires i < |Split(pattern)| && Records(Split(pattern)[i], Split(path)[i])
    requires forall j :: i < j < |Split(pattern)| && Records(Split(pattern)[j], Split(path)[j])
                         ==> Name(Split(pattern)[j]) != Name(Split(pattern)[i])
    ensures Match(pattern, path).params.Some?
    ensures Name(Split(pattern)[i]) in Match(pattern, path).params.value
    ensures Match(pattern, path).params.value[Name(Split(pattern)[i])] == Split(path)[i]
  {
    MatchIffFits(pattern, path);
    CapturesValue(Split(pattern), Split(path), i);
  }

  // ---------------------------------------------------------------------
  // Concrete routes

  /** Matching a pattern and a path given by their segments. */
  lemma MatchSegments(pattern: string, path: string, ps: seq<string>, xs: seq<string>)
    requires |ps| == |xs| >= 1
    requires forall i :: 0 <= i < |ps| ==> IsSegment(ps[i]) && IsSegment(xs[i])
    requires ps != xs && Join(ps) == pattern && Join(xs) == path
    ensures Match(pattern, path)
            == if Fits(ps, xs) then MatchResult(true, Some(Captures(ps, xs))) else MatchResult(false, None)
  {
    SplitJoin(ps);
    SplitJoin(xs);
  }

  /** The route of main.go:27. */
  lemma UserByIdRoute()
    ensures Match("/users/:id", "/users/42") == MatchResult(true, Some(map["id" := "42"]))
  {
    var ps, xs := ["", "users", ":id"], ["", "users", "42"];
    MatchSegments("/users/:id", "/users/42", ps, xs);
    assert Join(ps) == "/users/:id" && Join(xs) == "/users/42";
    assert ps[..2] == ["", "users"] && xs[..2] == ["", "users"];
    assert ps[..2][..1] == [""] && xs[..2][..1] == [""];
    assert Captures(["", "users"], ["", "users"]) == map[];
  }

  /** Segment lists of different lengths never match. */
  lemma SegmentCountsDiffer(ps: seq<string>, xs: seq<string>)
    requires |ps| >= 1 && |xs| >= 1 && |ps| != |xs|
    requires forall i :: 0 <= i < |ps| ==> IsSegment(ps[i])
    requires forall i :: 0 <= i < |xs| ==> IsSegment(xs[i])
    ensures Match(Join(ps), Join(xs)) == MatchResult(false, None)
  {
    SplitJoin(ps);
    SplitJoin(xs);
  }

  /** The route of main.go:27, given by its segments, for any segment in
      the parameter position other than ":id" itself. */
  lemma UserByIdAnyId(id: string)
    requires IsSegment(id) && id != ":id"
    ensures Match(Join(["", "users", ":id"]), Join(["", "users", id]))
            == MatchResult(true, Some(map["id" := id]))
  {
    var ps, xs := ["", "users", ":id"], ["", "users", id];
    assert Captures(ps, xs) == map["id" := id] by {
      CapturesSnoc([], [], "", "");
      assert [] + [""] == [""];
      CapturesSnoc([""], [""], "users", "users");
      assert [""] + ["users"] == ["", "users"];
      CapturesSnoc(["", "users"], ["", "users"], ":id", id);
      assert ps == ["", "users"] + [":id"] && xs == ["", "users"] + [id];
    }
    assert ps != xs by {
      assert ps[2] != xs[2];
    }
    MatchSegments(Join(ps), Join(xs), ps, xs);
  }

  /** One more position at the right end of a walk. */
  lemma CapturesSnoc(ps: seq<string>, xs: seq<string>, p: string, x: string)
    requires |ps| == |xs|
    ensures Captures(ps + [p], xs + [x])
            == if Records(p, x) then Captures(ps, xs)[Name(p) := x] else Captures(ps, xs)
  {
    assert (ps + [p])[..|ps|] == ps && (xs + [x])[..|xs|] == xs;
  }

  /** What the route of main.go:31 records for two parameter segments. */
  lemma UserAddressCaptures(userId: string, addressId: string)
    requires userId != ":user_id" && addressId != ":address_id"
    ensures Captures(["", "users", ":user_id", "addresses", ":address_id"],
                     ["", "users", userId, "addresses", addressId])
            == map["user_id" := userId, "address_id" := addressId]
  {
    var ps3, xs3 := ["", "users", ":user_id"], ["", "users", userId];
    assert Captures(["", "users"], ["", "users"]) == map[] by {
      CapturesSnoc([], [], "", "");
      assert [] + [""] == [""];
      CapturesSnoc([""], [""], "users", "users");
      assert [""] + ["users"] == ["", "users"];
    }
    assert Captures(ps3, xs3) == map["user_id" := userId] by {
      CapturesSnoc(["", "users"], ["", "users"], ":user_id", userId);
      assert ps3 == ["", "users"] + [":user_id"] && xs3 == ["", "users"] + [userId];
    }
    CapturesSnoc(ps3, xs3, "addresses", "addresses");
    CapturesSnoc(ps3 + ["addresses"], xs3 + ["addresses"], ":address_id", addressId);
    assert ps3 + ["addresses"] + [":address_id"] == ["", "users", ":user_id", "addresses", ":address_id"];
    assert xs3 + ["addresses"] + [addressId] == ["", "users", userId, "addresses", addressId];
  }

  /** The route of main.go:31, given by its segments: any two path
      segments in the parameter positions are captured under their names
      (unless a path segment spells the capture segment literally). */
  lemma UserAddressRoute(userId: string, addressId: string)
    requires IsSegment(userId) && IsSegment(addressId)
    requires userId != ":user_id" && addressId != ":address_id"
    ensures Match(Join(["", "users", ":user_id", "addresses", ":address_id"]),
                  Join(["", "users", userId, "addresses", addressId]))
            == MatchResult(true, Some(map["user_id" := userId, "address_id" := addressId]))
  {
    var ps := ["", "users", ":user_id", "addresses", ":address_id"];
    var xs := ["", "users", userId, "addresses", addressId];
    UserAddressCaptures(userId, addressId);
    assert ps != xs by {
      assert ps[2] != xs[2];
    }
    MatchSegments(Join(ps), Join(xs), ps, xs);
  }

  /** A path one segment longer than the route of main.go:27. */
  lemma ExtraSegmentFails()
    ensures Match("/users/:id", "/users/42/extra") == MatchResult(false, None)
  {
    var ps, xs := ["", "users", ":id"], ["", "users", "42", "extra"];
    SplitJoin(ps);
    SplitJoin(xs);
    assert Join(ps) == "/users/:id" && Join(xs) == "/users/42/extra";
  }

  /** A bare ':' captures under the empty name. */
  lemma BareMarkerCapturesEmptyName()
    ensures Match("/:", "/x") == MatchResult(true, Some(map["" := "x"]))
  {
    var ps, xs := ["", ":"], ["", "x"];
    MatchSegments("/:", "/x", ps, xs);
    assert Join(ps) == "/:" && Join(xs) == "/x";
    CapturesSnoc([], [], "", "");
    assert [] + [""] == [""];
    CapturesSnoc([""], [""], ":", "x");
    assert ps == [""] + [":"] && xs == [""] + ["x"];
  }

  /** A repeated name keeps the right-most value. */
  lemma RepeatedNameKeepsLast()
    ensures Match("/:a/:a", "/1/2") == MatchResult(true, Some(map["a" := "2"]))
  {
    var ps, xs := ["", ":a", ":a"], ["", "1", "2"];
    assert Join(ps) == "/:a/:a" && Join(xs) == "/1/2";
    assert Captures(ps, xs) == map["a" := "2"] by {
      CapturesSnoc([], [], "", "");
      assert [] + [""] == [""];
      CapturesSnoc([""], [""], ":a", "1");
      CapturesSnoc(["", ":a"], ["", "1"], ":a", "2");
      assert ps == ["", ":a"] + [":a"] && xs == ["", "1"] + ["2"];
    }
    assert Fits(ps, xs);
    MatchSegments("/:a/:a", "/1/2", ps, xs);
  }

  /** A capture segment that literally equals its path segment records
      nothing. */
  lemma LiteralCaptureRecordsNothing()
    ensures Match("/:x/:y", "/:x/7") == MatchResult(true, Some(map["y" := "7"]))
  {
    var ps, xs := ["", ":x", ":y"], ["", ":x", "7"];
    MatchSegments("/:x/:y", "/:x/7", ps, xs);
    assert Join(ps) == "/:x/:y" && Join(xs) == "/:x/7";
    CapturesSnoc([], [], "", "");
    assert [] + [""] == [""];
    CapturesSnoc([""], [""], ":x", ":x");
    CapturesSnoc(["", ":x"], ["", ":x"], ":y", "7");
    assert ps == ["", ":x"] + [":y"] && xs == ["", ":x"] + ["7"];
  }

  /** An empty pattern segment (a doubled slash) does not match a non-empty
      path segment. */
  lemma EmptySegmentFails()
    ensures Match("/a//b", "/a/x/b") == MatchResult(false, None)
  {
    var ps, xs := ["", "a", "", "b"], ["", "a", "x", "b"];
    MatchSegments("/a//b", "/a/x/b", ps, xs);
    assert Join(ps) == "/a//b" && Join(xs) == "/a/x/b";
    assert !Admits(ps[2], xs[2]);
  }
}

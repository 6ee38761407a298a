/**
 * Grafting a value into a JSON object tree at a dotted path, as the merge
 * loop of the request builder does with Jackson's ObjectNode: walk the
 * segments but the last from the root, reuse a child that already is an
 * object, put a fresh empty object where the child is absent or is not an
 * object, and set the value under the last segment.
 */
module JsonTree {
  import opened Types

  // ---------------------------------------------------------------------
  // Dotted names: `String.split("\\.")`

  /** The pieces of s between dots, empty pieces included. */
  function Pieces(s: string): (ps: seq<string>)
    ensures |ps| >= 1
    ensures forall k :: 0 <= k < |ps| ==> '.' !in ps[k]
  {
    if s == [] then [""]
    else
      var rest := Pieces(s[1..]);
      if s[0] == '.' then [""] + rest
      else [[s[0]] + rest[0]] + rest[1..]
  }

  /** The pieces joined with dots again. */
  function JoinDots(ps: seq<string>): string
    requires |ps| >= 1
  {
    if |ps| == 1 then ps[0] else ps[0] + "." + JoinDots(ps[1..])
  }

  /** Java's split with limit 0: trailing empty strings are removed. */
  function DropTrailingEmpty(ps: seq<string>): (r: seq<string>)
    ensures |r| <= |ps| && r == ps[..|r|]
    ensures r != [] ==> r[|r| - 1] != ""
    ensures forall k :: |r| <= k < |ps| ==> ps[k] == ""
  {
    if ps == [] then []
    else if ps[|ps| - 1] == "" then DropTrailingEmpty(ps[..|ps| - 1])
    else ps
  }

  /** `name.split("\\.")` for a name that contains a dot. */
  function SplitDots(name: string): seq<string> {
    DropTrailingEmpty(Pieces(name))
  }

  /** Splitting at the dots is undone by joining with dots. */
  lemma {:induction false} PiecesRoundTrip(s: string)
    ensures JoinDots(Pieces(s)) == s
  {
    if s != [] {
      PiecesRoundTrip(s[1..]);
      var rest := Pieces(s[1..]);
      if s[0] != '.' {
        var ps := [[s[0]] + rest[0]] + rest[1..];
        if |rest| > 1 {
          assert ps[1..] == rest[1..];
          assert JoinDots(rest) == rest[0] + "." + JoinDots(rest[1..]);
        }
      }
      assert [s[0]] + s[1..] == s;
    }
  }

  /** A text made of dots only (the empty text included). */
  predicate AllDots(s: string) {
    forall i :: 0 <= i < |s| ==> s[i] == '.'
  }

  /** Every piece is empty exactly when the text has nothing but dots. */
  lemma {:induction false} PiecesAllEmpty(s: string)
    ensures (forall k :: 0 <= k < |Pieces(s)| ==> Pieces(s)[k] == "") <==> AllDots(s)
  {
    if s != [] {
      PiecesAllEmpty(s[1..]);
      var rest := Pieces(s[1..]);
      if s[0] == '.' {
        assert Pieces(s) == [""] + rest;
        assert AllDots(s) <==> AllDots(s[1..]) by {
          if AllDots(s[1..]) {
            forall i | 0 <= i < |s|
              ensures s[i] == '.'
            {
              if i > 0 {
                assert s[i] == s[1..][i - 1];
              }
            }
          }
        }
        var ps := Pieces(s);
        assert forall k :: 0 <= k < |rest| ==> ps[k + 1] == rest[k];
        assert (forall k :: 0 <= k < |ps| ==> ps[k] == "") <==> (forall k :: 0 <= k < |rest| ==> rest[k] == "") by {
          if forall k :: 0 <= k < |rest| ==> rest[k] == "" {
            forall k | 0 <= k < |ps|
              ensures ps[k] == ""
            {
              if k > 0 {
                assert ps[k] == rest[k - 1];
              }
            }
          }
        }
      } else {
        assert Pieces(s)[0] == [s[0]] + rest[0];
      }
    }
  }

  /** `split` leaves no piece at all exactly for a text of dots only. */
  lemma SplitDotsEmpty(s: string)
    ensures SplitDots(s) == [] <==> AllDots(s)
  {
    PiecesAllEmpty(s);
    var ps := Pieces(s);
    var r := DropTrailingEmpty(ps);
    if r != [] {
      assert r[|r| - 1] == ps[|r| - 1];
    }
  }

  // ---------------------------------------------------------------------
  // Grafting

  /** The object fields reached under key k, or a fresh empty object. */
  function ChildObject(m: map<string, Json>, k: string): map<string, Json> {
    if k in m && m[k].JObject? then m[k].fields else map[]
  }

  /** The tree after `latestNode.set(last, v)` at the end of the walk along segs. */
  function Grafted(m: map<string, Json>, segs: seq<string>, v: Json): map<string, Json>
    requires |segs| >= 1
    decreases |segs|
  {
    if |segs| == 1 then m[segs[0] := v]
    else m[segs[0] := JObject(Grafted(ChildObject(m, segs[0]), segs[1..], v))]
  }

  /** The value stored at a path, walking object nodes only. */
  function Lookup(m: map<string, Json>, path: seq<string>): Option<Json>
    requires |path| >= 1
    decreases |path|
  {
    if path[0] !in m then None
    else if |path| == 1 then Some(m[path[0]])
    else match m[path[0]]
      case JObject(f) => Lookup(f, path[1..])
      case _ => None
  }

  /** Two paths part at some position that both have: neither is a prefix of the other. */
  predicate Diverges(p: seq<string>, q: seq<string>)
    requires |p| >= 1 && |q| >= 1
    decreases |p|
  {
    p[0] != q[0] || (|p| > 1 && |q| > 1 && Diverges(p[1..], q[1..]))
  }

  /** The chain of fresh objects holding v at the end of segs. */
  function Chain(segs: seq<string>, v: Json): map<string, Json>
    requires |segs| >= 1
    decreases |segs|
  {
    if |segs| == 1 then map[segs[0] := v]
    else map[segs[0] := JObject(Chain(segs[1..], v))]
  }

  /** The grafted value is found at its path. */
  lemma {:induction false} GraftedFinds(m: map<string, Json>, segs: seq<string>, v: Json)
    requires |segs| >= 1
    ensures Lookup(Grafted(m, segs, v), segs) == Some(v)
    decreases |segs|
  {
    if |segs| > 1 {
      GraftedFinds(ChildObject(m, segs[0]), segs[1..], v);
    }
  }

  /** Every path that parts from the grafted one, siblings under reused nodes included, keeps its value. */
  lemma {:induction false} GraftedKeepsOthers(m: map<string, Json>, segs: seq<string>, v: Json, q: seq<string>)
    requires |segs| >= 1 && |q| >= 1 && Diverges(segs, q)
    ensures Lookup(Grafted(m, segs, v), q) == Lookup(m, q)
    decreases |segs|
  {
    if segs[0] == q[0] {
      var child := ChildObject(m, segs[0]);
      GraftedKeepsOthers(child, segs[1..], v, q[1..]);
      if !(segs[0] in m && m[segs[0]].JObject?) {
        EmptyLookup(q[1..]);
      }
    }
  }

  lemma EmptyLookup(q: seq<string>)
    requires |q| >= 1
    ensures Lookup(map[], q) == None
  {
  }

  /** The root gains the first segment and keeps all its other keys. */
  lemma GraftedRootKeys(m: map<string, Json>, segs: seq<string>, v: Json)
    requires |segs| >= 1
    ensures Grafted(m, segs, v).Keys == m.Keys + {segs[0]}
    ensures forall k :: k in m && k != segs[0] ==> Grafted(m, segs, v)[k] == m[k]
  {
  }

  /** Grafting into an empty object builds the chain of fresh objects. */
  lemma {:induction false} GraftedIntoEmpty(segs: seq<string>, v: Json)
    requires |segs| >= 1
    ensures Grafted(map[], segs, v) == Chain(segs, v)
  {
    if |segs| > 1 {
      GraftedIntoEmpty(segs[1..], v);
    }
  }

  /** An absent or non-object intermediate is replaced by a fresh object holding only the new path. */
  lemma GraftedReplacesNonObject(m: map<string, Json>, segs: seq<string>, v: Json)
    requires |segs| > 1 && !(segs[0] in m && m[segs[0]].JObject?)
    ensures Grafted(m, segs, v)[segs[0]] == JObject(Chain(segs[1..], v))
  {
    GraftedIntoEmpty(segs[1..], v);
  }

  /** A later graft at the same path overwrites the earlier value. */
  lemma {:induction false} GraftedOverwrites(m: map<string, Json>, segs: seq<string>, v1: Json, v2: Json)
    requires |segs| >= 1
    ensures Grafted(Grafted(m, segs, v1), segs, v2) == Grafted(m, segs, v2)
    decreases |segs|
  {
    if |segs| > 1 {
      var child := ChildObject(m, segs[0]);
      GraftedOverwrites(child, segs[1..], v1, v2);
      assert ChildObject(Grafted(m, segs, v1), segs[0]) == Grafted(child, segs[1..], v1);
    }
  }

  // ---------------------------------------------------------------------
  // The walk with a cursor

  /** The ancestors of the cursor, outermost first: each object and the key the walk took in it. */
  type Trail = seq<(map<string, Json>, string)>

  /** Puts a modified cursor object back into its ancestors. */
  function Plug(trail: Trail, cursor: map<string, Json>): map<string, Json>
    decreases |trail|
  {
    if trail == [] then cursor
    else
      var last := trail[|trail| - 1];
      Plug(trail[..|trail| - 1], last.0[last.1 := JObject(cursor)])
  }

  /**
   * The walk of the merge loop: a cursor descends through the segments but
   * the last, reusing object children and planting fresh ones; the value is
   * set on the cursor and the changed objects are put back into the root.
   */
  method Graft(root: map<string, Json>, segs: seq<string>, v: Json) returns (r: map<string, Json>)
    requires |segs| >= 1
    ensures r == Grafted(root, segs, v)
    ensures Lookup(r, segs) == Some(v)
  {
    var cursor := root;
    var trail: Trail := [];
    var i := 0;
    while i + 1 < |segs|
      invariant 0 <= i < |segs|
      invariant Plug(trail, Grafted(cursor, segs[i..], v)) == Grafted(root, segs, v)
    {
      var s := segs[i];
      var next := ChildObject(cursor, s);
      assert Grafted(cursor, segs[i..], v) == cursor[s := JObject(Grafted(next, segs[i + 1..], v))] by {
        assert segs[i..][1..] == segs[i + 1..];
      }
      trail := trail + [(cursor, s)];
      cursor := next;
      i := i + 1;
    }
    cursor := cursor[segs[i] := v];
    while trail != []
      invariant Plug(trail, cursor) == Grafted(root, segs, v)
      decreases |trail|
    {
      var last := trail[|trail| - 1];
      cursor := last.0[last.1 := JObject(cursor)];
      trail := trail[..|trail| - 1];
    }
    r := cursor;
    GraftedFinds(root, segs, v);
  }
}

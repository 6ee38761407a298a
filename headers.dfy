/**
 * Header assembly of `makeRequestToMicroservice`: every ambient header of
 * the calling thread is added to a fresh header set, whose names compare
 * without regard to case, and the content type is then set to JSON unless
 * the payload is a byte array.
 */
module HeaderAssembly {
  import opened Types

  const ContentType := "content-type"
  const ApplicationJson := "application/json"

  /** ASCII case folding of one character. */
  function LowerChar(c: char): char {
    if 'A' <= c <= 'Z' then (c as int + 32) as char else c
  }

  /** The folded form under which a header name is stored and looked up. */
  function Fold(name: string): string {
    seq(|name|, i requires 0 <= i < |name| => LowerChar(name[i]))
  }

  /** Folding is idempotent: a stored name is its own key. */
  lemma FoldIdempotent(name: string)
    ensures Fold(Fold(name)) == Fold(name)
  {
  }

  /** The ambient names taken in iteration order, each once, and nothing else. */
  predicate Enumerates(ambient: map<string, string>, order: seq<string>) {
    (forall k :: k in ambient ==> k in order)
    && (forall i :: 0 <= i < |order| ==> order[i] in ambient)
    && forall i, j :: 0 <= i < j < |order| ==> order[i] != order[j]
  }

  /** The header set after `httpHeaders.add(name, value)` for the first n ambient entries. */
  function Added(ambient: map<string, string>, order: seq<string>, n: nat): Headers
    requires n <= |order| && forall i :: 0 <= i < |order| ==> order[i] in ambient
  {
    if n == 0 then map[]
    else
      var h := Added(ambient, order, n - 1);
      var f := Fold(order[n - 1]);
      h[f := (if f in h then h[f] else []) + [ambient[order[n - 1]]]]
  }

  /** The ambient values among the first n whose names fold to f, in iteration order. */
  function ValuesFor(ambient: map<string, string>, order: seq<string>, n: nat, f: string): seq<string>
    requires n <= |order| && forall i :: 0 <= i < |order| ==> order[i] in ambient
  {
    if n == 0 then []
    else ValuesFor(ambient, order, n - 1, f) + (if Fold(order[n - 1]) == f then [ambient[order[n - 1]]] else [])
  }

  /** The header set sent with a payload: the ambient headers, then the JSON content type unless the payload is bytes. */
  function HeaderSet(ambient: map<string, string>, order: seq<string>, payload: Value): Headers
    requires Enumerates(ambient, order)
  {
    var h := Added(ambient, order, |order|);
    if payload.Bytes? then h else h[ContentType := [ApplicationJson]]
  }

  /** Each header name holds exactly the ambient values that fold to it, in iteration order. */
  lemma {:induction false} AddedCollects(ambient: map<string, string>, order: seq<string>, n: nat, f: string)
    requires n <= |order| && forall i :: 0 <= i < |order| ==> order[i] in ambient
    ensures f in Added(ambient, order, n) <==> ValuesFor(ambient, order, n, f) != []
    ensures f in Added(ambient, order, n) ==> Added(ambient, order, n)[f] == ValuesFor(ambient, order, n, f)
  {
    if n > 0 {
      AddedCollects(ambient, order, n - 1, f);
    }
  }

  /** The values collected for f include the value of every ambient name among the first n that folds to f. */
  lemma {:induction false} ValuesForHas(ambient: map<string, string>, order: seq<string>, n: nat, i: nat)
    requires i < n <= |order| && forall j :: 0 <= j < |order| ==> order[j] in ambient
    ensures ambient[order[i]] in ValuesFor(ambient, order, n, Fold(order[i]))
  {
    if i < n - 1 {
      ValuesForHas(ambient, order, n - 1, i);
    }
  }

  /** Every collected value is the value of an ambient name among the first n that folds to f. */
  lemma {:induction false} ValuesForFrom(ambient: map<string, string>, order: seq<string>, n: nat, f: string, v: string)
    requires n <= |order| && forall j :: 0 <= j < |order| ==> order[j] in ambient
    requires v in ValuesFor(ambient, order, n, f)
    ensures exists i :: 0 <= i < n && Fold(order[i]) == f && ambient[order[i]] == v
  {
    if n > 0 {
      if v in ValuesFor(ambient, order, n - 1, f) {
        ValuesForFrom(ambient, order, n - 1, f, v);
        var i :| 0 <= i < n - 1 && Fold(order[i]) == f && ambient[order[i]] == v;
        assert 0 <= i < n;
      }
    }
  }

  /** Without two ambient names folding alike, only the one name contributes to its folded key. */
  lemma {:induction false} ValuesForSingle(ambient: map<string, string>, order: seq<string>, n: nat, i: nat)
    requires i < n <= |order| && forall j :: 0 <= j < |order| ==> order[j] in ambient
    requires forall j :: 0 <= j < n && j != i ==> Fold(order[j]) != Fold(order[i])
    ensures ValuesFor(ambient, order, n, Fold(order[i])) == [ambient[order[i]]]
  {
    if i < n - 1 {
      ValuesForSingle(ambient, order, n - 1, i);
    } else {
      ValuesForNone(ambient, order, n - 1, Fold(order[i]));
    }
  }

  lemma {:induction false} ValuesForNone(ambient: map<string, string>, order: seq<string>, n: nat, f: string)
    requires n <= |order| && forall j :: 0 <= j < |order| ==> order[j] in ambient
    requires forall j :: 0 <= j < n ==> Fold(order[j]) != f
    ensures ValuesFor(ambient, order, n, f) == []
  {
    if n > 0 {
      ValuesForNone(ambient, order, n - 1, f);
    }
  }

  /** Every ambient value is sent under its folded name, unless the JSON content type replaced that name. */
  lemma HeadersCarryAmbient(ambient: map<string, string>, order: seq<string>, payload: Value, k: string)
    requires Enumerates(ambient, order) && k in ambient
    requires payload.Bytes? || Fold(k) != ContentType
    ensures var h := HeaderSet(ambient, order, payload);
      Fold(k) in h && ambient[k] in h[Fold(k)]
  {
    var i :| 0 <= i < |order| && order[i] == k;
    ValuesForHas(ambient, order, |order|, i);
    AddedCollects(ambient, order, |order|, Fold(k));
  }

  /** A name none of whose ambient spellings folds alike with another carries exactly its one value. */
  lemma HeadersSingleValue(ambient: map<string, string>, order: seq<string>, payload: Value, k: string)
    requires Enumerates(ambient, order) && k in ambient
    requires payload.Bytes? || Fold(k) != ContentType
    requires forall k' :: k' in ambient && k' != k ==> Fold(k') != Fold(k)
    ensures Fold(k) in HeaderSet(ambient, order, payload)
    ensures HeaderSet(ambient, order, payload)[Fold(k)] == [ambient[k]]
  {
    var i :| 0 <= i < |order| && order[i] == k;
    assert forall j :: 0 <= j < |order| && j != i ==> order[j] in ambient && order[j] != k;
    ValuesForSingle(ambient, order, |order|, i);
    AddedCollects(ambient, order, |order|, Fold(k));
  }

  /**
   * The content type is JSON exactly when the payload is not bytes (null
   * included); a byte payload keeps whatever the ambient headers say, and
   * every other value comes from an ambient header.
   */
  lemma HeadersProvenance(ambient: map<string, string>, order: seq<string>, payload: Value, f: string, v: string)
    requires Enumerates(ambient, order)
    ensures var h := HeaderSet(ambient, order, payload);
      !payload.Bytes? ==> h[ContentType] == [ApplicationJson]
    ensures var h := HeaderSet(ambient, order, payload);
      f in h && v in h[f] && (payload.Bytes? || f != ContentType) ==>
        exists k :: k in ambient && Fold(k) == f && ambient[k] == v
  {
    var h := HeaderSet(ambient, order, payload);
    if f in h && v in h[f] && (payload.Bytes? || f != ContentType) {
      AddedCollects(ambient, order, |order|, f);
      ValuesForFrom(ambient, order, |order|, f, v);
    }
  }

  /** The names sent are the folded ambient names, plus the content type unless the payload is bytes. */
  lemma HeadersNames(ambient: map<string, string>, order: seq<string>, payload: Value, f: string)
    requires Enumerates(ambient, order)
    ensures f in HeaderSet(ambient, order, payload)
        <==> (exists k :: k in ambient && Fold(k) == f) || (!payload.Bytes? && f == ContentType)
  {
    AddedCollects(ambient, order, |order|, f);
    var vs := ValuesFor(ambient, order, |order|, f);
    if vs != [] {
      ValuesForFrom(ambient, order, |order|, f, vs[0]);
    }
    if k :| k in ambient && Fold(k) == f {
      var i :| 0 <= i < |order| && order[i] == k;
      ValuesForHas(ambient, order, |order|, i);
    }
  }

  /**
   * The header loop of `makeRequestToMicroservice`: each ambient entry is
   * appended under its folded name, then the content type is set.
   */
  method AssembleHeaders(ambient: map<string, string>, order: seq<string>, payload: Value) returns (h: Headers)
    requires Enumerates(ambient, order)
    ensures h == HeaderSet(ambient, order, payload)
  {
    h := map[];
    var i := 0;
    while i < |order|
      invariant 0 <= i <= |order|
      invariant h == Added(ambient, order, i)
    {
      var name := Fold(order[i]);
      var values := if name in h then h[name] else [];
      h := h[name := values + [ambient[order[i]]]];
      i := i + 1;
    }
    if !payload.Bytes? {
      h := h[ContentType := [ApplicationJson]];
    }
  }
}

/**
 * Placeholder replacement in a path template, as Java's
 * `String.replace(CharSequence target, CharSequence replacement)` does it:
 * every non-overlapping occurrence of the target, scanning left to right,
 * is replaced; the rest of the string is kept.
 */
module PathTemplate {

  predicate StartsWith(s: string, p: string) {
    |p| <= |s| && s[..|p|] == p
  }

  /** The target occurs somewhere in s. */
  predicate Occurs(s: string, target: string) {
    exists i :: 0 <= i <= |s| && StartsWith(s[i..], target)
  }

  /** `s.replace(target, replacement)` for a non-empty target. */
  function ReplaceAll(s: string, target: string, replacement: string): string
    requires |target| > 0
    decreases |s|
  {
    if |s| < |target| then s
    else if s[..|target|] == target then replacement + ReplaceAll(s[|target|..], target, replacement)
    else [s[0]] + ReplaceAll(s[1..], target, replacement)
  }

  /** `"{" + key + "}"`, the placeholder of a path-variable key. */
  function Placeholder(key: string): string {
    "{" + key + "}"
  }

  /** Pieces joined by a separator: `Join(["a", "b"], "/") == "a/b"`. */
  function Join(pieces: seq<string>, sep: string): string
    requires |pieces| >= 1
  {
    if |pieces| == 1 then pieces[0]
    else pieces[0] + sep + Join(pieces[1..], sep)
  }

  /** No occurrence of the target starts inside chunk c when c is followed by the target. */
  predicate Clean(c: string, target: string) {
    forall i :: 0 <= i < |c| ==> !StartsWith((c + target)[i..], target)
  }

  /** A chunk without the first character of the target is clean. */
  lemma CleanWithoutLead(c: string, target: string)
    requires |target| > 0 && target[0] !in c
    ensures Clean(c, target)
  {
    forall i | 0 <= i < |c|
      ensures !StartsWith((c + target)[i..], target)
    {
      assert (c + target)[i..][0] == c[i];
    }
  }

  /** A string without the target is returned unchanged. */
  lemma {:induction false} ReplaceAbsent(s: string, target: string, replacement: string)
    requires |target| > 0 && !Occurs(s, target)
    ensures ReplaceAll(s, target, replacement) == s
  {
    if |s| >= |target| {
      assert s[0..] == s;
      assert !StartsWith(s, target);
      forall i | 0 <= i <= |s[1..]|
        ensures !StartsWith(s[1..][i..], target)
      {
        assert s[1..][i..] == s[i + 1..];
      }
      ReplaceAbsent(s[1..], target, replacement);
    }
  }

  /** Characters before the next occurrence are copied through. */
  lemma {:induction false} ReplaceSkipsCleanChunk(c: string, target: string, rest: string, replacement: string)
    requires |target| > 0 && Clean(c, target)
    ensures ReplaceAll(c + target + rest, target, replacement) == c + ReplaceAll(target + rest, target, replacement)
  {
    if c != [] {
      var s := c + target + rest;
      CleanHead(c, target, rest);
      assert ReplaceAll(s, target, replacement) == [c[0]] + ReplaceAll(s[1..], target, replacement);
      CleanTail(c, target);
      assert s[1..] == c[1..] + target + rest;
      ReplaceSkipsCleanChunk(c[1..], target, rest, replacement);
      assert [c[0]] + (c[1..] + ReplaceAll(target + rest, target, replacement))
          == c + ReplaceAll(target + rest, target, replacement);
    }
  }

  /** In a clean chunk followed by the target, no occurrence starts at the front. */
  lemma CleanHead(c: string, target: string, rest: string)
    requires |target| > 0 && Clean(c, target) && c != []
    ensures |c + target + rest| >= |target|
    ensures (c + target + rest)[..|target|] != target
  {
    assert !StartsWith((c + target)[0..], target);
    assert (c + target)[0..] == c + target;
    assert (c + target + rest)[..|target|] == (c + target)[..|target|];
  }

  /** What follows the first character of a clean chunk is clean. */
  lemma CleanTail(c: string, target: string)
    requires Clean(c, target) && c != []
    ensures Clean(c[1..], target)
  {
    forall i | 0 <= i < |c[1..]|
      ensures !StartsWith((c[1..] + target)[i..], target)
    {
      assert (c[1..] + target)[i..] == (c + target)[i + 1..];
    }
  }

  /**
   * Every occurrence is replaced and nothing else changes: a string made of
   * clean chunks separated by the target becomes the same chunks separated
   * by the replacement.
   */
  lemma {:induction false} ReplaceJoin(chunks: seq<string>, target: string, replacement: string)
    requires |target| > 0 && |chunks| >= 1
    requires forall k :: 0 <= k < |chunks| ==> Clean(chunks[k], target)
    ensures ReplaceAll(Join(chunks, target), target, replacement) == Join(chunks, replacement)
  {
    if |chunks| == 1 {
      var c := chunks[0];
      forall i | 0 <= i <= |c|
        ensures !StartsWith(c[i..], target)
      {
        if i < |c| {
          assert c[i..] == (c + target)[i..][..|c| - i];
        }
      }
      ReplaceAbsent(c, target, replacement);
    } else {
      var rest := Join(chunks[1..], target);
      assert Join(chunks, target) == chunks[0] + target + rest;
      ReplaceSkipsCleanChunk(chunks[0], target, rest, replacement);
      assert (target + rest)[..|target|] == target;
      assert (target + rest)[|target|..] == rest;
      ReplaceJoin(chunks[1..], target, replacement);
    }
  }

  // ---------------------------------------------------------------------
  // Placeholders of brace-free keys

  /** A path-variable key without braces, so its placeholder cannot overlap another. */
  predicate Braceless(key: string) {
    '{' !in key && '}' !in key
  }

  /** Past its opening brace, a placeholder holds no `{`. */
  lemma PlaceholderInterior(key: string, m: nat)
    requires Braceless(key) && 1 <= m < |Placeholder(key)|
    ensures Placeholder(key)[m] != '{'
  {
    if m <= |key| {
      assert Placeholder(key)[m] == key[m - 1];
    }
  }

  /** Text without `{` in front of anything is copied through by the replacement of a placeholder. */
  lemma {:induction false} ReplaceBracelessPrefix(c: string, y: string, target: string, replacement: string)
    requires |target| > 0 && target[0] == '{' && '{' !in c
    ensures ReplaceAll(c + y, target, replacement) == c + ReplaceAll(y, target, replacement)
    decreases |c|
  {
    if c != [] {
      var s := c + y;
      if |s| < |target| {
        assert ReplaceAll(s, target, replacement) == s;
        assert ReplaceAll(y, target, replacement) == y;
      } else {
        assert s[..|target|][0] == s[0] == c[0] != target[0];
        assert ReplaceAll(s, target, replacement) == [s[0]] + ReplaceAll(s[1..], target, replacement);
        assert s[1..] == c[1..] + y;
        ReplaceBracelessPrefix(c[1..], y, target, replacement);
        assert [c[0]] + (c[1..] + ReplaceAll(y, target, replacement)) == c + ReplaceAll(y, target, replacement);
      }
    } else {
      assert c + y == y;
    }
  }

  /** Two brace-free keys whose placeholders both start a text are the same key. */
  lemma SamePlaceholder(s: string, key: string, other: string)
    requires Braceless(key) && Braceless(other)
    ensures StartsWith(s, Placeholder(key)) && StartsWith(s, Placeholder(other)) ==> key == other
  {
    if StartsWith(s, Placeholder(key)) && StartsWith(s, Placeholder(other)) {
      var t, o := Placeholder(key), Placeholder(other);
      assert forall m :: 1 <= m <= |key| ==> t[m] == key[m - 1];
      assert forall m :: 1 <= m <= |other| ==> o[m] == other[m - 1];
      assert s[|key| + 1] == t[|key| + 1];
      assert s[|other| + 1] == o[|other| + 1];
      assert |key| == |other|;
      assert key == t[1..|key| + 1] == s[1..|key| + 1];
      assert other == o[1..|other| + 1] == s[1..|other| + 1];
    }
  }

  /** An occurrence of another brace-free placeholder cannot start inside a leading occurrence of this one. */
  lemma OccurrenceAfter(s: string, key: string, other: string, i: nat)
    requires Braceless(key) && Braceless(other) && key != other
    requires |Placeholder(key)| <= |s| && s[..|Placeholder(key)|] == Placeholder(key)
    requires i <= |s| && StartsWith(s[i..], Placeholder(other))
    ensures i >= |Placeholder(key)|
  {
    var t := Placeholder(key);
    assert s[i..][0] == s[i];
    forall m | 1 <= m < |t|
      ensures s[m] != '{'
    {
      assert s[m] == s[..|t|][m];
      PlaceholderInterior(key, m);
    }
    assert s[0..] == s;
    SamePlaceholder(s, key, other);
  }

  /**
   * Replacing the placeholder of one brace-free key keeps every occurrence
   * of the placeholder of another brace-free key: the replaced text is not
   * scanned again, so the result still contains it.
   */
  lemma {:induction false} ReplaceKeepsOther(s: string, key: string, other: string, replacement: string, i: nat)
      returns (j: nat)
    requires Braceless(key) && Braceless(other) && key != other
    requires i <= |s| && StartsWith(s[i..], Placeholder(other))
    ensures j <= |ReplaceAll(s, Placeholder(key), replacement)|
    ensures StartsWith(ReplaceAll(s, Placeholder(key), replacement)[j..], Placeholder(other))
    decreases |s|
  {
    var t, o := Placeholder(key), Placeholder(other);
    var r := ReplaceAll(s, t, replacement);
    if |s| < |t| {
      j := i;
    } else if s[..|t|] == t {
      OccurrenceAfter(s, key, other, i);
      var tail := s[|t|..];
      assert tail[i - |t|..] == s[i..];
      var j' := ReplaceKeepsOther(tail, key, other, replacement, i - |t|);
      var rt := ReplaceAll(tail, t, replacement);
      assert r == replacement + rt;
      j := |replacement| + j';
      assert r[j..] == rt[j'..];
    } else if i > 0 {
      var tail := s[1..];
      assert tail[i - 1..] == s[i..];
      var j' := ReplaceKeepsOther(tail, key, other, replacement, i - 1);
      var rt := ReplaceAll(tail, t, replacement);
      assert r == [s[0]] + rt;
      j := j' + 1;
      assert r[j..] == rt[j'..];
    } else {
      assert s[0..] == s;
      var c := s[1..|o|];
      var y := s[|o|..];
      assert c == other + "}";
      assert '{' !in c;
      assert s[1..] == c + y;
      ReplaceBracelessPrefix(c, y, t, replacement);
      assert r == [s[0]] + (c + ReplaceAll(y, t, replacement));
      assert r[..|o|] == [s[0]] + c == s[..|o|];
      j := 0;
    }
  }

  /** The same, stated with Occurs. */
  lemma ReplaceKeepsOccurrence(s: string, key: string, other: string, replacement: string)
    requires Braceless(key) && Braceless(other) && key != other
    requires Occurs(s, Placeholder(other))
    ensures Occurs(ReplaceAll(s, Placeholder(key), replacement), Placeholder(other))
  {
    var i :| 0 <= i <= |s| && StartsWith(s[i..], Placeholder(other));
    var j := ReplaceKeepsOther(s, key, other, replacement, i);
  }

  /** A text shorter than a brace-free key's placeholder is clean for it. */
  lemma ShortClean(c: string, key: string)
    requires Braceless(key) && |c| < |Placeholder(key)|
    ensures Clean(c, Placeholder(key))
  {
    var t := Placeholder(key);
    forall i | 0 <= i < |c|
      ensures !StartsWith((c + t)[i..], t)
    {
      var m := |c| - i;
      PlaceholderInterior(key, m);
      assert (c + t)[i..][m] == (c + t)[|c|] == '{';
    }
  }

  /**
   * Every path splits into clean chunks around the placeholder of a
   * brace-free key, so ReplaceJoin describes the replacement of any path.
   */
  lemma {:induction false} ChunksOf(s: string, key: string) returns (chunks: seq<string>)
    requires Braceless(key)
    ensures |chunks| >= 1 && Join(chunks, Placeholder(key)) == s
    ensures forall k :: 0 <= k < |chunks| ==> Clean(chunks[k], Placeholder(key))
    decreases |s|
  {
    var t := Placeholder(key);
    if |s| < |t| {
      ShortClean(s, key);
      chunks := [s];
    } else if s[..|t|] == t {
      var rest := ChunksOf(s[|t|..], key);
      chunks := [""] + rest;
      assert chunks[1..] == rest;
      assert s == s[..|t|] + s[|t|..];
    } else {
      var rest := ChunksOf(s[1..], key);
      var c := [s[0]] + rest[0];
      chunks := [c] + rest[1..];
      if |rest| == 1 {
        assert Join(chunks, t) == c;
        assert c == s;
      } else {
        assert chunks[1..] == rest[1..];
        assert Join(rest, t) == rest[0] + t + Join(rest[1..], t);
        assert Join(chunks, t) == c + t + Join(rest[1..], t);
        assert [s[0]] + s[1..] == s;
      }
      assert (c + t)[..|t|] == s[..|t|];
      forall i | 0 <= i < |c|
        ensures !StartsWith((c + t)[i..], t)
      {
        if i == 0 {
          assert (c + t)[0..] == c + t;
        } else {
          assert (c + t)[i..] == (rest[0] + t)[i - 1..];
        }
      }
    }
  }

  /** Replacing a brace-free key's placeholder in any path: its clean chunks, rejoined by the replacement. */
  lemma ReplaceAnyPath(s: string, key: string, replacement: string) returns (chunks: seq<string>)
    requires Braceless(key)
    ensures |chunks| >= 1 && Join(chunks, Placeholder(key)) == s
    ensures forall k :: 0 <= k < |chunks| ==> !Occurs(chunks[k], Placeholder(key))
    ensures ReplaceAll(s, Placeholder(key), replacement) == Join(chunks, replacement)
  {
    chunks := ChunksOf(s, key);
    ReplaceJoin(chunks, Placeholder(key), replacement);
    forall k | 0 <= k < |chunks|
      ensures !Occurs(chunks[k], Placeholder(key))
    {
      CleanHasNone(chunks[k], Placeholder(key));
    }
  }

  /** A clean chunk holds no occurrence of the target. */
  lemma CleanHasNone(c: string, target: string)
    requires |target| > 0 && Clean(c, target)
    ensures !Occurs(c, target)
  {
    forall i | 0 <= i <= |c|
      ensures !StartsWith(c[i..], target)
    {
      if i < |c| {
        assert c[i..] == (c + target)[i..][..|c| - i];
      }
    }
  }
}

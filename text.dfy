/** The JavaScript string built-ins the pipeline relies on: the `\s` character
    class and `String.prototype.trim`, `split(/\s+/)`, `Array.prototype.join`,
    decimal rendering of a number in a template literal, and counting the
    occurrences of a pattern. */
module Text {

  /** ECMAScript WhiteSpace and LineTerminator code points: the set matched by
      `\s` and removed by `trim()`. */
  predicate IsWs(c: char) {
    || ('\t' <= c <= '\r') || c == ' ' || c == '\U{00A0}' || c == '\U{1680}'
    || ('\U{2000}' <= c <= '\U{200A}') || ('\U{2028}' <= c <= '\U{2029}')
    || c == '\U{202F}' || c == '\U{205F}' || c == '\U{3000}' || c == '\U{FEFF}'
  }

  /** No character of `s` is whitespace. */
  predicate WsFree(s: string) {
    forall k :: 0 <= k < |s| ==> !IsWs(s[k])
  }

  /** Every character of `s` is whitespace. */
  predicate AllWs(s: string) {
    forall k :: 0 <= k < |s| ==> IsWs(s[k])
  }

  // ---------------------------------------------------------------- trim

  /** Drops the leading whitespace: the result is the longest suffix that does
      not start with whitespace. */
  function TrimStart(s: string): (r: string)
    ensures |r| <= |s| && r == s[|s| - |r|..]
    ensures forall k :: 0 <= k < |s| - |r| ==> IsWs(s[k])
    ensures r == [] || !IsWs(r[0])
  {
    if s != [] && IsWs(s[0]) then
      var r := TrimStart(s[1..]);
      assert s[1..][|s| - 1 - |r|..] == s[|s| - |r|..];
      r
    else
      s
  }

  /** Drops the trailing whitespace: the result is the longest prefix that does
      not end with whitespace. */
  function TrimEnd(s: string): (r: string)
    ensures |r| <= |s| && r == s[..|r|]
    ensures forall k :: |r| <= k < |s| ==> IsWs(s[k])
    ensures r == [] || !IsWs(r[|r| - 1])
  {
    if s != [] && IsWs(s[|s| - 1]) then
      var r := TrimEnd(s[..|s| - 1]);
      assert s[..|s| - 1][..|r|] == s[..|r|];
      r
    else
      s
  }

  /** `s.trim()`: the text between the leading and the trailing whitespace. It
      is empty exactly when `s` is all whitespace, and otherwise starts and ends
      with a non-whitespace character. */
  function Trim(s: string): (r: string)
    ensures |r| <= |s|
    ensures r == [] <==> AllWs(s)
    ensures r == [] || (!IsWs(r[0]) && !IsWs(r[|r| - 1]))
  {
    var t := TrimStart(s);
    TrimStartAllWs(s);
    TrimEndEmpty(t);
    TrimEndFirst(t);
    TrimEnd(t)
  }

  /** What `trim()` removes: the trimmed text is a slice of `s` with only
      whitespace before and after it. With the contract of `Trim` this pins the
      result down: it is `s` without its leading and trailing whitespace. */
  lemma TrimSlice(s: string)
    ensures TrimmedAt(s, |s| - |TrimStart(s)|, Trim(s))
  {
    var t := TrimStart(s);
    assert Trim(s) == TrimEnd(t);
    TrimSpan(s, t, TrimEnd(t));
  }

  /** The reverse direction: any slice of `s` with non-whitespace ends and only
      whitespace around it is `Trim(s)`. */
  lemma TrimUnique(s: string, a: nat, r: string)
    requires TrimmedAt(s, a, r) && r != [] && !IsWs(r[0]) && !IsWs(r[|r| - 1])
    ensures r == Trim(s)
  {
    TrimSlice(s);
    SliceUnique(s, a, r, |s| - |TrimStart(s)|, Trim(s));
  }

  /** Two whitespace-framed slices with non-whitespace ends are the same. */
  lemma SliceUnique(s: string, a: nat, r: string, b: nat, q: string)
    requires TrimmedAt(s, a, r) && r != [] && !IsWs(r[0]) && !IsWs(r[|r| - 1])
    requires TrimmedAt(s, b, q) && (q == [] <==> AllWs(s)) && (q == [] || (!IsWs(q[0]) && !IsWs(q[|q| - 1])))
    ensures r == q
  {
    assert !AllWs(s) by {
      assert s[a] == r[0];
    }
    SliceEnds(s, a, r, b, q);
    SliceEnds(s, b, q, a, r);
  }

  /** Two whitespace-framed slices with non-whitespace ends start and end at
      the same places. */
  lemma SliceEnds(s: string, a: nat, r: string, b: nat, q: string)
    requires TrimmedAt(s, a, r) && r != [] && !IsWs(r[0]) && !IsWs(r[|r| - 1])
    requires TrimmedAt(s, b, q) && q != []
    ensures b <= a && a + |r| <= b + |q|
  {
    forall k | 0 <= k < b ensures IsWs(s[k]) {
      assert s[..b][k] == s[k];
    }
    forall k | b + |q| <= k < |s| ensures IsWs(s[k]) {
      assert s[b + |q|..][k - (b + |q|)] == s[k];
    }
    assert s[a] == r[0] && s[a + |r| - 1] == r[|r| - 1];
  }

  /** `r` is the slice of `s` from position `a`, with only whitespace before
      and after it. */
  predicate TrimmedAt(s: string, a: nat, r: string) {
    && a + |r| <= |s| && r == s[a..a + |r|] && AllWs(s[..a]) && AllWs(s[a + |r|..])
  }

  /** The trimmed text is the slice of `s` between a whitespace prefix and a
      whitespace suffix. */
  lemma TrimSpan(s: string, t: string, r: string)
    requires |t| <= |s| && t == s[|s| - |t|..] && forall k :: 0 <= k < |s| - |t| ==> IsWs(s[k])
    requires |r| <= |t| && r == t[..|r|] && forall k :: |r| <= k < |t| ==> IsWs(t[k])
    ensures TrimmedAt(s, |s| - |t|, r)
  {
    var a := |s| - |t|;
    assert r == s[a..a + |r|];
    AllWsPrefix(s, a);
    AllWsSuffix(t, |r|);
    assert s[a + |r|..] == t[|r|..];
    assert TrimmedAt(s, a, r);
  }

  lemma AllWsPrefix(s: string, a: nat)
    requires a <= |s| && forall k :: 0 <= k < a ==> IsWs(s[k])
    ensures AllWs(s[..a])
  {
    forall k | 0 <= k < a ensures IsWs(s[..a][k]) {
      assert s[..a][k] == s[k];
    }
  }

  lemma AllWsSuffix(s: string, a: nat)
    requires a <= |s| && forall k :: a <= k < |s| ==> IsWs(s[k])
    ensures AllWs(s[a..])
  {
    forall k | 0 <= k < |s| - a ensures IsWs(s[a..][k]) {
      assert s[a..][k] == s[a + k];
    }
  }

  /** Dropping trailing whitespace keeps the first character when something
      is left. */
  lemma TrimEndFirst(t: string)
    ensures TrimEnd(t) == [] || TrimEnd(t)[0] == t[0]
  {
  }

  /** Dropping leading whitespace keeps a text all-whitespace or not. */
  lemma TrimStartAllWs(s: string)
    ensures AllWs(TrimStart(s)) <==> AllWs(s)
  {
    var t := TrimStart(s);
    var d := |s| - |t|;
    if t != [] {
      assert t[0] == s[d];
    }
  }

  /** Dropping trailing whitespace leaves nothing exactly when the text is all
      whitespace. */
  lemma TrimEndEmpty(t: string)
    ensures TrimEnd(t) == [] <==> AllWs(t)
  {
    var r := TrimEnd(t);
    if r != [] {
      assert r[|r| - 1] == t[|r| - 1];
    }
  }

  /** Trimming a text that is framed by one whitespace character on each side
      and has non-whitespace ends inside gives back the inside. */
  lemma TrimFramed(c: char, m: string, d: char)
    requires IsWs(c) && IsWs(d)
    requires m != [] && !IsWs(m[0]) && !IsWs(m[|m| - 1])
    ensures Trim([c] + m + [d]) == m
  {
    var s := [c] + m + [d];
    assert s[1..1 + |m|] == m;
    assert s[..1] == [c] && s[1 + |m|..] == [d];
    TrimUnique(s, 1, m);
  }

  // ---------------------------------------------------------------- split

  /** `s.split(/\s+/)`: the pieces between the maximal runs of whitespace. A
      leading (trailing) run yields an empty first (last) piece, the empty text
      yields one empty piece, and no other piece is empty. */
  function SplitWs(s: string): (r: seq<string>)
    ensures |r| >= 1
  {
    if s == [] then [[]]
    else
      var rest := SplitWs(s[1..]);
      if !IsWs(s[0]) then [[s[0]] + rest[0]] + rest[1..]
      else if |s| > 1 && IsWs(s[1]) then rest
      else [[]] + rest
  }

  /** The pieces of `s.split(/\s+/)` hold no whitespace; the first (last) piece
      is empty exactly when the text is empty or starts (ends) with whitespace;
      every other piece is non-empty; and there is one piece exactly when the
      text holds no whitespace. */
  lemma SplitWsShape(s: string)
    ensures var r := SplitWs(s);
      && (forall i :: 0 <= i < |r| ==> WsFree(r[i]))
      && (r[0] == [] <==> s == [] || IsWs(s[0]))
      && (r[|r| - 1] == [] <==> s == [] || IsWs(s[|s| - 1]))
      && (forall i :: 0 < i < |r| - 1 ==> r[i] != [])
      && (|r| == 1 <==> WsFree(s))
  {
    SplitWsPiecesWsFree(s);
    SplitWsFirst(s);
    SplitWsSingle(s);
    SplitWsLast(s);
    SplitWsMiddle(s);
  }

  lemma {:induction false} SplitWsPiecesWsFree(s: string)
    ensures forall i :: 0 <= i < |SplitWs(s)| ==> WsFree(SplitWs(s)[i])
  {
    if s != [] {
      SplitWsPiecesWsFree(s[1..]);
      var rest := SplitWs(s[1..]);
      if !IsWs(s[0]) {
        assert WsFree([s[0]] + rest[0]);
      }
    }
  }

  lemma SplitWsFirst(s: string)
    ensures SplitWs(s)[0] == [] <==> s == [] || IsWs(s[0])
  {
    if s != [] && IsWs(s[0]) && |s| > 1 && IsWs(s[1]) {
      SplitWsFirst(s[1..]);
    }
  }

  /** A text that starts and ends with non-whitespace splits into non-empty
      pieces free of whitespace. */
  lemma SplitWsTrimmed(t: string)
    requires t != [] && !IsWs(t[0]) && !IsWs(t[|t| - 1])
    ensures var r := SplitWs(t); forall i :: 0 <= i < |r| ==> r[i] != [] && WsFree(r[i])
  {
    var r := SplitWs(t);
    SplitWsPiecesWsFree(t);
    SplitWsFirst(t);
    SplitWsLast(t);
    SplitWsMiddle(t);
    forall i | 0 <= i < |r|
      ensures r[i] != []
    {
      if i == 0 {
      } else if i == |r| - 1 {
      }
    }
  }

  /** A non-empty text is free of whitespace exactly when its first character
      is not whitespace and the rest is free of it. */
  lemma WsFreeCons(s: string)
    requires s != []
    ensures WsFree(s) <==> !IsWs(s[0]) && WsFree(s[1..])
  {
    assert forall k :: 0 < k < |s| ==> s[1..][k - 1] == s[k];
  }

  /** There is one piece exactly when the text holds no whitespace. */
  lemma {:induction false} SplitWsSingle(s: string)
    ensures |SplitWs(s)| == 1 <==> WsFree(s)
  {
    if s != [] {
      var tail := s[1..];
      SplitWsSingle(tail);
      WsFreeCons(s);
      if |s| > 1 {
        WsFreeCons(tail);
      }
    }
  }

  /** The last piece is empty exactly when the text is empty or ends with
      whitespace. */
  lemma {:induction false} SplitWsLast(s: string)
    ensures var r := SplitWs(s); r[|r| - 1] == [] <==> s == [] || IsWs(s[|s| - 1])
  {
    if s != [] {
      var tail := s[1..];
      SplitWsLast(tail);
      SplitWsSingle(tail);
      if tail != [] {
        assert tail[|tail| - 1] == s[|s| - 1];
        if WsFree(tail) {
          assert !IsWs(tail[|tail| - 1]);
        }
      }
    }
  }

  lemma {:induction false} SplitWsMiddle(s: string)
    ensures var r := SplitWs(s); forall i :: 0 < i < |r| - 1 ==> r[i] != []
  {
    if s != [] {
      var tail := s[1..];
      SplitWsMiddle(tail);
      SplitWsFirst(tail);
      var rest := SplitWs(tail);
      var r := SplitWs(s);
      if !IsWs(s[0]) {
        assert forall i :: 0 < i < |r| ==> r[i] == rest[i];
      } else if |s| > 1 && IsWs(s[1]) {
      } else {
        assert forall i :: 0 < i < |r| ==> r[i] == rest[i - 1];
      }
    }
  }

  // ---------------------------------------------------------------- join

  /** `parts.join(sep)`. */
  function Join(parts: seq<string>, sep: string): string
  {
    if |parts| == 0 then []
    else if |parts| == 1 then parts[0]
    else parts[0] + sep + Join(parts[1..], sep)
  }

  /** `parts.join(' ')`, the way the chunker renders a clip. */
  function JoinSpace(parts: seq<string>): string {
    Join(parts, " ")
  }

  /** Joining splits at any inner position into the joins of the two sides. */
  lemma {:induction false} JoinSplitAt(parts: seq<string>, sep: string, k: nat)
    requires 0 < k < |parts|
    ensures Join(parts, sep) == Join(parts[..k], sep) + sep + Join(parts[k..], sep)
  {
    if k > 1 {
      JoinSplitAt(parts[1..], sep, k - 1);
      assert parts[1..][..k - 1] == parts[..k][1..];
      assert parts[1..][k - 1..] == parts[k..];
    }
  }

  /** Joining the concatenation of two non-empty lists puts one separator
      between their joins. */
  lemma JoinAppend(a: seq<string>, b: seq<string>, sep: string)
    requires a != [] && b != []
    ensures Join(a + b, sep) == Join(a, sep) + sep + Join(b, sep)
  {
    JoinSplitAt(a + b, sep, |a|);
    assert (a + b)[..|a|] == a;
    assert (a + b)[|a|..] == b;
  }

  /** `x` occurs in `s` at position `i`. */
  predicate OccursAt(s: string, x: string, i: int) {
    0 <= i <= |s| - |x| && s[i..i + |x|] == x
  }

  /** `x` occurs in `s` at some position. */
  ghost predicate Contains(s: string, x: string) {
    exists i :: OccursAt(s, x, i)
  }

  lemma ContainsMiddle(a: string, x: string, b: string)
    ensures Contains(a + x + b, x)
  {
    assert OccursAt(a + x + b, x, |a|);
  }

  /** Text found inside a piece is found inside anything that embeds it. */
  lemma ContainsWithin(p: string, s: string, q: string, x: string)
    requires Contains(s, x)
    ensures Contains(p + s + q, x)
  {
    var i :| OccursAt(s, x, i);
    assert (p + s + q)[|p| + i..|p| + i + |x|] == s[i..i + |x|];
    assert OccursAt(p + s + q, x, |p| + i);
  }

  /** Text found inside a piece of `s` is found inside `s`. */
  lemma ContainsTrans(s: string, x: string, y: string)
    requires Contains(s, x) && Contains(x, y)
    ensures Contains(s, y)
  {
    var i :| OccursAt(s, x, i);
    var j :| OccursAt(x, y, j);
    var w := s[i + j..i + j + |y|];
    forall k | 0 <= k < |y| ensures w[k] == y[k] {
      assert w[k] == s[i + j + k] == x[j + k] == y[k];
    }
    assert w == y;
    assert OccursAt(s, y, i + j);
  }

  /** `s` ends with `x`. */
  predicate EndsWith(s: string, x: string) {
    |x| <= |s| && s[|s| - |x|..] == x
  }

  /** A join starts with its first part and ends with its last. */
  lemma JoinFirstLast(parts: seq<string>, sep: string)
    requires parts != []
    ensures parts[0] <= Join(parts, sep)
    ensures EndsWith(Join(parts, sep), parts[|parts| - 1])
  {
    JoinContains(parts, sep, 0);
    JoinContains(parts, sep, |parts| - 1);
  }

  /** A join ends with the join of any non-empty tail of its parts. */
  lemma JoinEndsWithTail(a: seq<string>, b: seq<string>, sep: string)
    requires a != [] && b != []
    ensures EndsWith(Join(a + b, sep), Join(b, sep))
  {
    JoinAppend(a, b, sep);
    var front := Join(a, sep) + sep;
    assert Join(a + b, sep) == front + Join(b, sep);
  }

  /** Four parts joined. */
  lemma JoinFour(w: string, x: string, y: string, z: string, sep: string)
    ensures Join([w, x, y, z], sep) == w + sep + x + sep + y + sep + z
  {
    assert [w, x, y, z][1..] == [x, y, z];
    assert [x, y, z][1..] == [y, z];
    assert [y, z][1..] == [z];
    assert Join([y, z], sep) == y + sep + z;
    assert Join([x, y, z], sep) == x + sep + (y + sep + z);
    assert Join([w, x, y, z], sep) == w + sep + (x + sep + (y + sep + z));
  }

  /** Consecutive parts occur in the joined text with one separator between
      them. */
  lemma JoinAdjacent(parts: seq<string>, sep: string, k: nat)
    requires k + 1 < |parts|
    ensures Contains(Join(parts, sep), parts[k] + sep + parts[k + 1])
  {
    var tail := parts[k..];
    var mid := parts[k] + sep + parts[k + 1];
    JoinSplitAt(tail, sep, 1);
    assert tail[..1] == [parts[k]];
    JoinContains(tail[1..], sep, 0);
    assert tail[1..][0] == parts[k + 1];
    var rest := Join(tail[1..], sep);
    var after := rest[|parts[k + 1]|..];
    assert rest == parts[k + 1] + after;
    assert Join(tail, sep) == [] + mid + after;
    ContainsMiddle([], mid, after);
    if k > 0 {
      JoinSplitAt(parts, sep, k);
      ContainsWithin(Join(parts[..k], sep) + sep, Join(tail, sep), [], mid);
      assert Join(parts[..k], sep) + sep + Join(tail, sep) + [] == Join(parts, sep);
    } else {
      assert tail == parts;
    }
  }

  /** Every part occurs in the joined text, and the join starts with its first
      part and ends with its last. */
  lemma {:induction false} JoinContains(parts: seq<string>, sep: string, k: nat)
    requires k < |parts|
    ensures Contains(Join(parts, sep), parts[k])
    ensures k == 0 ==> Join(parts, sep)[..|parts[0]|] == parts[0]
    ensures k == |parts| - 1 ==> |Join(parts, sep)| >= |parts[k]|
    ensures k == |parts| - 1 ==> Join(parts, sep)[|Join(parts, sep)| - |parts[k]|..] == parts[k]
  {
    var j := Join(parts, sep);
    var before := if k == 0 then [] else Join(parts[..k], sep) + sep;
    var after := if k == |parts| - 1 then [] else sep + Join(parts[k + 1..], sep);
    if k > 0 {
      JoinSplitAt(parts, sep, k);
    }
    var tail := parts[k..];
    if |tail| > 1 {
      JoinSplitAt(tail, sep, 1);
      assert tail[1..] == parts[k + 1..];
      assert tail[..1] == [parts[k]];
    }
    assert Join(tail, sep) == parts[k] + after;
    assert j == before + parts[k] + after;
    ContainsMiddle(before, parts[k], after);
    assert k == 0 ==> j[..|parts[0]|] == parts[0];
    assert k == |parts| - 1 ==> j[|j| - |parts[k]|..] == parts[k];
  }

  // ---------------------------------------------------------------- normalisation

  /** Replaces every maximal run of whitespace by a single space. */
  function Squeeze(s: string): string
  {
    if s == [] then []
    else if IsWs(s[0]) then
      if |s| > 1 && IsWs(s[1]) then Squeeze(s[1..]) else " " + Squeeze(s[1..])
    else [s[0]] + Squeeze(s[1..])
  }

  /** The whitespace-normalised text: trimmed, with every inner run of
      whitespace collapsed to one space. */
  function Normalize(s: string): string {
    Squeeze(Trim(s))
  }

  /** Splitting on whitespace runs and joining with one space is the same as
      collapsing every whitespace run to one space. */
  lemma {:induction false} JoinSplitWs(s: string)
    ensures JoinSpace(SplitWs(s)) == Squeeze(s)
  {
    if s != [] {
      JoinSplitWs(s[1..]);
      var rest := SplitWs(s[1..]);
      if !IsWs(s[0]) {
        var r := SplitWs(s);
        assert r == [[s[0]] + rest[0]] + rest[1..];
        if |rest| > 1 {
          assert r[1..] == rest[1..];
          assert JoinSpace(rest) == rest[0] + " " + JoinSpace(rest[1..]);
        }
      } else if |s| > 1 && IsWs(s[1]) {
      } else {
        assert ([[]] + rest)[1..] == rest;
      }
    }
  }

  /** Splitting a text that starts with a whitespace-free word adds that word
      to the front of the first piece. */
  lemma {:induction false} SplitWsPrefix(w: string, t: string)
    requires WsFree(w)
    ensures SplitWs(w + t) == [w + SplitWs(t)[0]] + SplitWs(t)[1..]
  {
    if w != [] {
      var s := SplitWs(t);
      assert (w + t)[1..] == w[1..] + t;
      assert (w + t)[0] == w[0] && !IsWs(w[0]);
      SplitWsPrefix(w[1..], t);
      var rest := SplitWs(w[1..] + t);
      assert rest[0] == w[1..] + s[0] && rest[1..] == s[1..];
      assert SplitWs(w + t) == [[w[0]] + rest[0]] + rest[1..];
      assert [w[0]] + (w[1..] + s[0]) == w + s[0];
    } else {
      var s := SplitWs(t);
      assert w + t == t && w + s[0] == s[0];
      assert s == [s[0]] + s[1..];
    }
  }

  /** Splitting the single-space join of non-empty whitespace-free words gives
      the words back. */
  lemma {:induction false} SplitJoinSpace(words: seq<string>)
    requires words != []
    requires forall i :: 0 <= i < |words| ==> words[i] != [] && WsFree(words[i])
    ensures SplitWs(JoinSpace(words)) == words
  {
    if |words| == 1 {
      SplitWsPrefix(words[0], []);
      assert words[0] + [] == words[0];
    } else {
      var j := JoinSpace(words[1..]);
      SplitJoinSpace(words[1..]);
      JoinEnds(words[1..]);
      assert JoinSpace(words) == words[0] + (" " + j);
      SplitWsPrefix(words[0], " " + j);
      assert (" " + j)[1..] == j;
      assert SplitWs(" " + j) == [[]] + SplitWs(j);
      assert words[0] + [] == words[0];
    }
  }

  /** The single-space join of non-empty whitespace-free words starts with the
      first word's first character and ends with the last word's last one. */
  lemma {:induction false} JoinEnds(words: seq<string>)
    requires words != []
    requires forall i :: 0 <= i < |words| ==> words[i] != [] && WsFree(words[i])
    ensures var j := JoinSpace(words);
      j != [] && j[0] == words[0][0] && j[|j| - 1] == words[|words| - 1][|words[|words| - 1]| - 1]
  {
    if |words| > 1 {
      JoinEnds(words[1..]);
    }
  }

  /** The single-space join of non-empty whitespace-free words is already
      normalised: no leading, trailing or doubled spaces and no other
      whitespace. */
  lemma JoinSpaceNormalized(words: seq<string>)
    requires words != []
    requires forall i :: 0 <= i < |words| ==> words[i] != [] && WsFree(words[i])
    ensures Normalize(JoinSpace(words)) == JoinSpace(words)
  {
    var j := JoinSpace(words);
    JoinEnds(words);
    assert Trim(j) == j by {
      var t := TrimStart(j);
      assert t == j;
      var r := TrimEnd(t);
    }
    SplitJoinSpace(words);
    JoinSplitWs(j);
  }

  // ---------------------------------------------------------------- numbers

  function DigitChar(d: nat): char
    requires d < 10
  {
    "0123456789"[d]
  }

  predicate IsDigit(c: char) {
    '0' <= c <= '9'
  }

  function DigitValue(c: char): nat
    requires IsDigit(c)
  {
    (c as int - '0' as int) as nat
  }

  /** The decimal text `${n}` of a non-negative integer: only digits, and no
      leading zero. */
  function NatToString(n: nat): (r: string)
    ensures r != []
    ensures forall k :: 0 <= k < |r| ==> IsDigit(r[k])
    ensures r[0] == '0' ==> n == 0
  {
    if n < 10 then [DigitChar(n)] else NatToString(n / 10) + [DigitChar(n % 10)]
  }

  /** Reads a digit string as a decimal number. */
  function ParseNat(s: string): nat
    requires forall k :: 0 <= k < |s| ==> IsDigit(s[k])
  {
    if s == [] then 0 else 10 * ParseNat(s[..|s| - 1]) + DigitValue(s[|s| - 1])
  }

  /** Reading back the decimal text gives the number. */
  lemma {:induction false} ParseNatToString(n: nat)
    ensures ParseNat(NatToString(n)) == n
  {
    var r := NatToString(n);
    if n >= 10 {
      ParseNatToString(n / 10);
      assert r[..|r| - 1] == NatToString(n / 10);
    }
  }

  /** Different numbers have different decimal texts. */
  lemma NatToStringInjective(m: nat, n: nat)
    requires NatToString(m) == NatToString(n)
    ensures m == n
  {
    ParseNatToString(m);
    ParseNatToString(n);
  }

  // ---------------------------------------------------------------- occurrences

  /** The number of positions at which `pat` occurs in `s` (overlaps counted). */
  function CountOcc(s: string, pat: string): nat
    requires pat != []
    decreases |s|
  {
    if |s| < |pat| then 0
    else (if s[..|pat|] == pat then 1 else 0) + CountOcc(s[1..], pat)
  }
  /** The total number of occurrences of `pat` inside the parts themselves. */
  function SumOcc(parts: seq<string>, pat: string): nat
    requires pat != []
  {
    if parts == [] then 0 else CountOcc(parts[0], pat) + SumOcc(parts[1..], pat)
  }

  /** No occurrence of `pat` straddles the seam of `x + y` when one of the two
      characters at the seam does not appear in `pat`. */
  lemma {:induction false} CountOccConcat(x: string, y: string, pat: string)
    requires pat != []
    requires x == [] || y == [] || x[|x| - 1] !in pat || y[0] !in pat
    ensures CountOcc(x + y, pat) == CountOcc(x, pat) + CountOcc(y, pat)
  {
    if x == [] {
      assert x + y == y;
    } else {
      assert (x + y)[1..] == x[1..] + y;
      assert x[1..] != [] ==> x[1..][|x| - 2] == x[|x| - 1];
      CountOccConcat(x[1..], y, pat);
      if |x| >= |pat| {
        assert (x + y)[..|pat|] == x[..|pat|];
      } else if |x + y| >= |pat| {
        var w := (x + y)[..|pat|];
        assert w[|x| - 1] == x[|x| - 1] && w[|x|] == y[0];
        assert w != pat;
      }
    }
  }

  /** Joining non-empty parts whose first and last characters never appear in
      the separator adds exactly one occurrence of the separator per seam: the
      join holds |parts| - 1 separators besides those inside the parts. */
  lemma {:induction false} CountOccJoin(parts: seq<string>, sep: string)
    requires sep != [] && parts != []
    requires forall i :: 0 <= i < |parts| ==>
      parts[i] != [] && parts[i][0] !in sep && parts[i][|parts[i]| - 1] !in sep
    ensures CountOcc(Join(parts, sep), sep) == |parts| - 1 + SumOcc(parts, sep)
  {
    if |parts| == 1 {
      assert SumOcc(parts[1..], sep) == 0;
    } else {
      var tail := parts[1..];
      var rest := Join(tail, sep);
      assert Join(parts, sep) == parts[0] + (sep + rest);
      assert SumOcc(parts, sep) == CountOcc(parts[0], sep) + SumOcc(tail, sep);
      assert forall i :: 0 <= i < |tail| ==> tail[i] == parts[i + 1];
      CountOccJoin(tail, sep);
      JoinContains(tail, sep, 0);
      assert rest[0] == tail[0][0];
      CountOccSeam(parts[0], sep, rest);
    }
  }

  /** Gluing two texts with a separator whose neighbours never appear in it
      adds exactly one occurrence. */
  lemma CountOccSeam(a: string, sep: string, b: string)
    requires sep != [] && a != [] && b != []
    requires a[|a| - 1] !in sep && b[0] !in sep
    ensures CountOcc(a + (sep + b), sep) == CountOcc(a, sep) + 1 + CountOcc(b, sep)
  {
    assert CountOcc(sep, sep) == 1 by {
      assert sep[..|sep|] == sep;
      assert CountOcc(sep[1..], sep) == 0;
    }
    CountOccConcat(sep, b, sep);
    CountOccConcat(a, sep + b, sep);
  }

  /** When no part holds the separator, the join holds exactly |parts| - 1. */
  lemma {:induction false} SumOccZero(parts: seq<string>, pat: string)
    requires pat != []
    requires forall i :: 0 <= i < |parts| ==> CountOcc(parts[i], pat) == 0
    ensures SumOcc(parts, pat) == 0
  {
    if parts != [] {
      SumOccZero(parts[1..], pat);
    }
  }
}

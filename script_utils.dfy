/** Splitting a narration script into clips of a fixed number of words. The
    number of words per clip comes from a constants module of the application
    and is a parameter `n >= 1` here. */
module ScriptUtils {
  import opened Text

  function Min(a: int, b: int): int {
    if a <= b then a else b
  }

  /** The words of a script: `script.trim().split(/\s+/)`. The split never
      gives an empty list: a blank script gives one empty word, which is why
      the chunker tests for a blank script before it splits. */
  function Words(script: string): (r: seq<string>)
    ensures |r| >= 1
  {
    SplitWs(Trim(script))
  }

  /** The words of a script that is not blank are non-empty and free of
      whitespace, and joined by single spaces they give the normalised script:
      they are its maximal runs of non-whitespace, in order. */
  lemma WordsAreRuns(script: string)
    requires Trim(script) != []
    ensures var words := Words(script);
      && words != []
      && (forall i :: 0 <= i < |words| ==> words[i] != [] && WsFree(words[i]))
      && JoinSpace(words) == Normalize(script)
  {
    var t := Trim(script);
    assert Words(script) == SplitWs(t) && Normalize(script) == Squeeze(t);
    SplitWsTrimmed(t);
    JoinSplitWs(t);
  }

  /** Consecutive groups of `n` items; the last group holds what is left. */
  function Groups<T>(items: seq<T>, n: nat): seq<seq<T>>
    requires n >= 1
    decreases |items|
  {
    if items == [] then []
    else
      var k := Min(n, |items|);
      [items[..k]] + Groups(items[k..], n)
  }

  /** The items of a list of groups, in order. */
  function Flatten<T>(groups: seq<seq<T>>): seq<T> {
    if groups == [] then [] else groups[0] + Flatten(groups[1..])
  }

  /** Each group rendered as its words joined by single spaces. */
  function JoinEach(groups: seq<seq<string>>): (r: seq<string>)
    ensures |r| == |groups|
  {
    if groups == [] then [] else [JoinSpace(groups[0])] + JoinEach(groups[1..])
  }

  /** There is one rendering per group, in the order of the groups. */
  lemma {:induction false} JoinEachAt(groups: seq<seq<string>>)
    ensures |JoinEach(groups)| == |groups|
    ensures forall i :: 0 <= i < |groups| ==> JoinEach(groups)[i] == JoinSpace(groups[i])
  {
    if groups != [] {
      JoinEachAt(groups[1..]);
    }
  }

  /** The clips of a script: none for a blank script, otherwise one per group of
      `n` consecutive words, rendered with single spaces. There are no clips
      exactly when the script is empty or all whitespace. */
  function Clips(script: string, n: nat): (r: seq<string>)
    requires n >= 1
    ensures r == [] <==> AllWs(script)
  {
    if Trim(script) == [] then [] else JoinEach(Groups(Words(script), n))
  }

  /** `chunkWordsToClips`: a blank script gives no clips; otherwise the script
      is trimmed and split on whitespace, and the words are chunked. */
  method ChunkWordsToClips(script: string, n: nat) returns (clips: seq<string>)
    requires n >= 1
    ensures clips == Clips(script, n)
  {
    if Trim(script) == [] {
      return [];
    }
    var words := SplitWs(Trim(script));
    clips := ChunkWords(words, n);
  }

  /** The loop of `chunkWordsToClips`: it steps through the words `n` at a
      time and pushes each slice, joined by spaces, onto the list of clips. */
  method ChunkWords(words: seq<string>, n: nat) returns (clips: seq<string>)
    requires n >= 1
    ensures clips == JoinEach(Groups(words, n))
  {
    ghost var all := JoinEach(Groups(words, n));
    clips := [];
    var i: nat := 0;
    assert RenderFrom(words, n, 0) == all by {
      assert words[Min(0, |words|)..] == words;
    }
    while i < |words|
      invariant clips + RenderFrom(words, n, i) == all
      decreases |words| - i
    {
      var chunk := words[i..Min(i + n, |words|)];
      LoopStep(clips, words, n, i, all);
      clips := clips + [JoinSpace(chunk)];
      i := i + n;
    }
    assert RenderFrom(words, n, i) == [] by {
      assert words[Min(i, |words|)..] == [];
    }
  }

  /** The loop invariant is kept: pushing the rendering of the next slice
      moves it from the clips still to come to the clips made. */
  lemma LoopStep(clips: seq<string>, words: seq<string>, n: nat, i: nat, all: seq<string>)
    requires n >= 1 && i < |words|
    requires clips + RenderFrom(words, n, i) == all
    ensures clips + [JoinSpace(words[i..Min(i + n, |words|)])] + RenderFrom(words, n, i + n) == all
  {
    var x := JoinSpace(words[i..Min(i + n, |words|)]);
    var later := RenderFrom(words, n, i + n);
    GroupsStep(words, n, i);
    assert clips + [x] + later == clips + ([x] + later);
  }

  /** The clips rendered from the words at position `i` on. */
  function RenderFrom(words: seq<string>, n: nat, i: nat): seq<string>
    requires n >= 1
  {
    JoinEach(Groups(words[Min(i, |words|)..], n))
  }

  /** One step of the loop: the clips from position `i` on are the slice of
      the next `n` words followed by the clips from there on. */
  lemma GroupsStep(words: seq<string>, n: nat, i: nat)
    requires n >= 1 && i < |words|
    ensures RenderFrom(words, n, i)
      == [JoinSpace(words[i..Min(i + n, |words|)])] + RenderFrom(words, n, i + n)
  {
    var chunk := words[i..Min(i + n, |words|)];
    var rest := words[i..];
    var later := words[Min(i + n, |words|)..];
    assert rest[..Min(n, |rest|)] == chunk;
    assert rest[Min(n, |rest|)..] == later;
    assert Groups(rest, n) == [chunk] + Groups(later, n);
    assert ([chunk] + Groups(later, n))[1..] == Groups(later, n);
  }

  // ---------------------------------------------------------------- the partition

  /** The groups, read in order, give back every item exactly once. */
  lemma {:induction false} FlattenGroups<T>(items: seq<T>, n: nat)
    requires n >= 1
    ensures Flatten(Groups(items, n)) == items
    decreases |items|
  {
    if items != [] {
      var k := Min(n, |items|);
      FlattenGroups(items[k..], n);
      assert ([items[..k]] + Groups(items[k..], n))[1..] == Groups(items[k..], n);
      assert items[..k] + items[k..] == items;
    }
  }

  /** Every group but the last has exactly `n` items, the last has between 1
      and `n`, and there are groups exactly when there are items. */
  lemma {:induction false} GroupSizes<T>(items: seq<T>, n: nat)
    requires n >= 1
    ensures var g := Groups(items, n);
      && (forall i :: 0 <= i < |g| - 1 ==> |g[i]| == n)
      && (g != [] ==> 1 <= |g[|g| - 1]| <= n)
      && (g == [] <==> items == [])
    decreases |items|
  {
    if items != [] {
      var k := Min(n, |items|);
      var g := Groups(items, n);
      var g' := Groups(items[k..], n);
      GroupSizes(items[k..], n);
      assert g == [items[..k]] + g';
      assert forall i :: 0 < i < |g| ==> g[i] == g'[i - 1];
    }
  }

  /** No group is empty. */
  lemma {:induction false} GroupsNonEmpty<T>(items: seq<T>, n: nat)
    requires n >= 1
    ensures forall i :: 0 <= i < |Groups(items, n)| ==> Groups(items, n)[i] != []
    decreases |items|
  {
    if items != [] {
      var k := Min(n, |items|);
      var g' := Groups(items[k..], n);
      GroupsNonEmpty(items[k..], n);
      assert Groups(items, n) == [items[..k]] + g';
    }
  }

  /** The number of groups g is the least with |items| <= g * n. */
  lemma {:induction false} GroupCountBounds<T>(items: seq<T>, n: nat)
    requires n >= 1
    ensures var g := |Groups(items, n)|;
      items != [] ==> (g - 1) * n < |items| <= g * n
    decreases |items|
  {
    if |items| > n {
      var m := |Groups(items[n..], n)|;
      GroupCountBounds(items[n..], n);
      assert |Groups(items, n)| == m + 1;
      MulShift(m, n);
    }
  }

  lemma MulShift(m: int, n: int)
    ensures (m + 1) * n == m * n + n
    ensures (m - 1) * n == m * n - n
  {
  }

  /** The number of groups is the ceiling of |items| / n. */
  lemma GroupCount<T>(items: seq<T>, n: nat)
    requires n >= 1
    ensures |Groups(items, n)| == (|items| + n - 1) / n
  {
    GroupCountBounds(items, n);
    var g := |Groups(items, n)|;
    if items != [] {
      MulShift(g - 1, n);
      DivideBetween(|items| + n - 1, n, g);
    }
  }

  /** `q` is the quotient of `a` by `n` when `a` lies in [q * n, q * n + n). */
  lemma DivideBetween(a: int, n: int, q: int)
    requires n >= 1 && q * n <= a < q * n + n
    ensures a / n == q
  {
    var d := a / n;
    assert a == d * n + a % n && 0 <= a % n < n;
    if d > q {
      MulMono(q + 1, d, n);
    } else if d < q {
      MulMono(d + 1, q, n);
    }
  }

  lemma MulMono(x: int, y: int, n: int)
    requires x <= y && n >= 0
    ensures x * n <= y * n
  {
    assert y * n - x * n == (y - x) * n;
  }

  /** With exactly k * n words there are k groups of n words each. */
  lemma {:induction false} GroupsExactMultiple<T>(items: seq<T>, n: nat, k: nat)
    requires n >= 1 && |items| == k * n
    ensures |Groups(items, n)| == k
    ensures forall i :: 0 <= i < k ==> |Groups(items, n)[i]| == n
  {
    if k > 0 {
      assert |items| >= n;
      var g := Groups(items, n);
      GroupsExactMultiple(items[n..], n, k - 1);
      assert g == [items[..n]] + Groups(items[n..], n);
      assert forall i :: 0 < i < |g| ==> g[i] == Groups(items[n..], n)[i - 1];
    }
  }

  /** With k * n + r words and 0 < r < n there are k + 1 groups, the last of
      r words. */
  lemma {:induction false} GroupsRemainder<T>(items: seq<T>, n: nat, k: nat, r: nat)
    requires n >= 1 && 0 < r < n && |items| == k * n + r
    ensures |Groups(items, n)| == k + 1
    ensures |Groups(items, n)[k]| == r
  {
    if k == 0 {
      assert Groups(items, n) == [items[..r]] + Groups(items[r..], n);
      assert items[r..] == [];
    } else {
      RemainderStep(|items|, n, k, r);
      GroupsRemainder(items[n..], n, k - 1, r);
      GroupsFirst(items, n);
    }
  }

  lemma RemainderStep(len: nat, n: nat, k: nat, r: nat)
    requires n >= 1 && k >= 1 && len == k * n + r
    ensures len >= n && len - n == (k - 1) * n + r
  {
    MulShift(k - 1, n);
  }

  /** A list of at least `n` items: the groups after the first are the groups
      of the items after the first `n`. */
  lemma GroupsFirst<T>(items: seq<T>, n: nat)
    requires n >= 1 && |items| >= n
    ensures Groups(items, n)[1..] == Groups(items[n..], n)
    ensures |Groups(items, n)| == 1 + |Groups(items[n..], n)|
  {
    assert Groups(items, n) == [items[..n]] + Groups(items[n..], n);
  }

  // ---------------------------------------------------------------- clips

  /** Joining the single-space renderings of non-empty groups by single spaces
      is the same as joining all their words. */
  lemma {:induction false} JoinEachFlatten(groups: seq<seq<string>>)
    requires forall i :: 0 <= i < |groups| ==> groups[i] != []
    ensures JoinSpace(JoinEach(groups)) == JoinSpace(Flatten(groups))
  {
    if |groups| > 1 {
      JoinEachFlatten(groups[1..]);
      var rest := groups[1..];
      assert Flatten(rest) != [] by {
        assert Flatten(rest) == rest[0] + Flatten(rest[1..]);
      }
      JoinAppend(groups[0], Flatten(rest), " ");
      assert JoinEach(groups) == [JoinSpace(groups[0])] + JoinEach(rest);
    } else if |groups| == 1 {
      assert groups[1..] == [];
      assert Flatten(groups) == groups[0] + [];
      assert JoinEach(groups) == [JoinSpace(groups[0])];
      assert JoinSpace([JoinSpace(groups[0])]) == JoinSpace(groups[0]);
      assert Flatten(groups) == groups[0];
    }
  }

  /** The words of a clip are the items of its group. */
  lemma {:induction false} GroupItem<T>(items: seq<T>, n: nat, i: nat, j: nat)
    requires n >= 1 && i < |Groups(items, n)| && j < |Groups(items, n)[i]|
    ensures Groups(items, n)[i][j] in items
    decreases |items|
  {
    var k := Min(n, |items|);
    if i > 0 {
      GroupItem(items[k..], n, i - 1, j);
    }
  }

  /** The clips of a script that is not blank partition its words: there are
      ceiling(|words| / n) of them, clip i renders the i-th group of words, every
      group but the last has `n` words and the last 1 to `n`, and the groups,
      read in order, are exactly the words. */
  lemma ClipsPartitionWords(script: string, n: nat)
    requires n >= 1 && Trim(script) != []
    ensures var clips := Clips(script, n);
      var words := Words(script);
      var g := Groups(words, n);
      && |clips| == |g| == (|words| + n - 1) / n
      && Flatten(g) == words
      && (forall i :: 0 <= i < |g| - 1 ==> |g[i]| == n)
      && 1 <= |g[|g| - 1]| <= n
      && (forall i :: 0 <= i < |clips| ==> clips[i] == JoinSpace(g[i]))
  {
    var words := Words(script);
    var g := Groups(words, n);
    assert Clips(script, n) == JoinEach(g);
    JoinEachAt(g);
    GroupsPartition(words, n);
  }

  /** The groups of a non-empty list: ceiling(|items| / n) of them, all but the
      last of `n` items, the last of 1 to `n`, flattening back to the items. */
  lemma GroupsPartition<T>(items: seq<T>, n: nat)
    requires n >= 1 && items != []
    ensures var g := Groups(items, n);
      && |g| == (|items| + n - 1) / n
      && Flatten(g) == items
      && (forall i :: 0 <= i < |g| - 1 ==> |g[i]| == n)
      && 1 <= |g[|g| - 1]| <= n
  {
    FlattenGroups(items, n);
    GroupSizes(items, n);
    GroupCount(items, n);
  }

  /** Every clip of a script is non-empty and already normalised (no leading,
      trailing or doubled spaces, no other whitespace), and splitting it again
      gives back the words of its group. */
  lemma ClipsAreNormalized(script: string, n: nat, i: nat)
    requires n >= 1 && Trim(script) != [] && i < |Groups(Words(script), n)|
    ensures var clip := Clips(script, n)[i];
      && clip != []
      && Normalize(clip) == clip
      && SplitWs(clip) == Groups(Words(script), n)[i]
  {
    var words := Words(script);
    var group := Groups(words, n)[i];
    assert Clips(script, n) == JoinEach(Groups(words, n));
    ClipIsGroup(script, n, i);
    WordsAreRuns(script);
    GroupsNonEmpty(words, n);
    GroupWords(words, n, i);
    RenderedGroup(group);
  }

  /** A group of words rendered with single spaces is non-empty, normalised,
      and splits back into the group. */
  lemma RenderedGroup(group: seq<string>)
    requires group != []
    requires forall k :: 0 <= k < |group| ==> group[k] != [] && WsFree(group[k])
    ensures JoinSpace(group) != []
    ensures Normalize(JoinSpace(group)) == JoinSpace(group)
    ensures SplitWs(JoinSpace(group)) == group
  {
    SplitJoinSpace(group);
    JoinSpaceNormalized(group);
  }

  lemma ClipIsGroup(script: string, n: nat, i: nat)
    requires n >= 1 && Trim(script) != [] && i < |Groups(Words(script), n)|
    ensures Clips(script, n)[i] == JoinSpace(Groups(Words(script), n)[i])
  {
    assert Clips(script, n) == JoinEach(Groups(Words(script), n));
    JoinEachAt(Groups(Words(script), n));
  }

  /** The words of every group are words of the script, hence non-empty and
      free of whitespace. */
  lemma GroupWords(words: seq<string>, n: nat, i: nat)
    requires n >= 1 && i < |Groups(words, n)|
    requires forall k :: 0 <= k < |words| ==> words[k] != [] && WsFree(words[k])
    ensures forall j :: 0 <= j < |Groups(words, n)[i]| ==>
      Groups(words, n)[i][j] != [] && WsFree(Groups(words, n)[i][j])
  {
    forall j | 0 <= j < |Groups(words, n)[i]|
      ensures Groups(words, n)[i][j] != [] && WsFree(Groups(words, n)[i][j])
    {
      GroupItem(words, n, i, j);
    }
  }

  /** The clips joined by single spaces give the normalised script. */
  lemma ClipsJoinToNormalized(script: string, n: nat)
    requires n >= 1
    ensures JoinSpace(Clips(script, n)) == Normalize(script)
  {
    if Trim(script) != [] {
      var words := Words(script);
      var g := Groups(words, n);
      assert Clips(script, n) == JoinEach(g);
      WordsAreRuns(script);
      FlattenGroups(words, n);
      GroupsNonEmpty(words, n);
      JoinEachFlatten(g);
    } else {
      assert Clips(script, n) == [];
      assert Normalize(script) == Squeeze([]) == [];
    }
  }

  /** A script of exactly k * n words gives k clips of n words each. */
  lemma ClipsExactMultiple(script: string, n: nat, k: nat)
    requires n >= 1 && Trim(script) != [] && |Words(script)| == k * n
    ensures |Clips(script, n)| == k
    ensures forall i :: 0 <= i < k ==> |SplitWs(Clips(script, n)[i])| == n
  {
    ClipsPartitionWords(script, n);
    GroupsExactMultiple(Words(script), n, k);
    forall i | 0 <= i < k
      ensures |SplitWs(Clips(script, n)[i])| == n
    {
      ClipsAreNormalized(script, n, i);
    }
  }

  /** A script of k * n + r words, 0 < r < n, gives k + 1 clips, the last of r
      words. */
  lemma ClipsRemainder(script: string, n: nat, k: nat, r: nat)
    requires n >= 1 && 0 < r < n && Trim(script) != [] && |Words(script)| == k * n + r
    ensures |Clips(script, n)| == k + 1
    ensures |SplitWs(Clips(script, n)[k])| == r
  {
    ClipsPartitionWords(script, n);
    GroupsRemainder(Words(script), n, k, r);
    ClipsAreNormalized(script, n, k);
  }
}

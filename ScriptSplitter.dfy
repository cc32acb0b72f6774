/**
 * The split of a compiled response into static markup and script contents.
 *
 * The client runs `text.replace(/<script\b[^>]*>([\s\S]*?)<\/script>/gi, cb)` where the
 * callback pushes the captured content onto `scripts` and returns "". One global pass of the
 * regex finds, from the current position, the leftmost match; the match is deleted, its group
 * is recorded, and the search resumes where the match ended.
 *
 * The regex is not a Unicode regex, so the `i` flag folds case by upper-casing without ever
 * mapping a non-ASCII character onto an ASCII one: the letters of "script" match exactly their
 * ASCII upper- and lower-case forms. `\b` after "script" holds when the next character is not
 * one of [A-Za-z0-9_] (or the text ends there).
 */
module ScriptSplitter {
  import opened Wrappers

  /** ASCII lower-casing, the only case folding that can make a character match "script". */
  function Lower(c: char): (r: char)
    ensures 'A' <= c <= 'Z' ==> r as int == c as int + 32
    ensures !('A' <= c <= 'Z') ==> r == c
  {
    if 'A' <= c <= 'Z' then (c as int + 32) as char else c
  }

  /** A word character for `\b`. */
  predicate IsWordChar(c: char) {
    'a' <= c <= 'z' || 'A' <= c <= 'Z' || '0' <= c <= '9' || c == '_'
  }

  /** The literal beginning of an opening tag, in lower case. */
  const OpenPrefix: string := "<script"

  /** The closing tag, in lower case; no whitespace is allowed inside it. */
  const CloseTag: string := "</script>"

  /** `s` holds the lower-case pattern `pat` at position `i`, ASCII case-insensitively. */
  predicate MatchesAt(s: string, i: nat, pat: string) {
    i + |pat| <= |s| && forall k :: 0 <= k < |pat| ==> Lower(s[i + k]) == pat[k]
  }

  /**
   * One match of the regex: `start` is the `<` of the opening tag, `open` the first index of the
   * script content (just after the tag's `>`), `close` the `<` of the closing tag and `end` the
   * index just after the closing tag.
   */
  datatype Block = Block(start: nat, open: nat, close: nat, end: nat)

  /**
   * The regex matches `s[b.start..b.end]` with its group at `s[b.open..b.close]`, stated
   * declaratively: `<script` in any case, a non-word character after it, attributes free of `>`,
   * the tag's `>`, then content that holds no closing tag, then the first closing tag.
   */
  ghost predicate IsBlockAt(s: string, b: Block) {
    && MatchesAt(s, b.start, OpenPrefix)
    && Spans(s, b)
    && !IsWordChar(s[b.start + |OpenPrefix|])
    && s[b.open - 1] == '>'
    && (forall k :: b.start + |OpenPrefix| <= k < b.open - 1 ==> s[k] != '>')
    && MatchesAt(s, b.close, CloseTag)
    && (forall k :: b.open <= k < b.close ==> !MatchesAt(s, k, CloseTag))
  }

  /** The four positions of `b` lie in order inside `s`, with room for both tags. */
  predicate Spans(s: string, b: Block) {
    b.start + |OpenPrefix| < b.open <= b.close && b.end == b.close + |CloseTag| <= |s|
  }

  /** The first `>` at or after `from`: where `[^>]*` stops. */
  function FindTagEnd(s: string, from: nat): (r: Option<nat>)
    decreases |s| - from
    ensures r.Some? ==> from <= r.value < |s| && s[r.value] == '>'
    ensures r.Some? ==> forall k :: from <= k < r.value ==> s[k] != '>'
    ensures r.None? ==> forall k :: from <= k < |s| ==> s[k] != '>'
  {
    if from >= |s| then None
    else if s[from] == '>' then Some(from)
    else FindTagEnd(s, from + 1)
  }

  /** The first closing tag at or after `from`: where the lazy `([\s\S]*?)` stops. */
  function FindCloseTag(s: string, from: nat): (r: Option<nat>)
    decreases |s| - from
    ensures r.Some? ==> from <= r.value && MatchesAt(s, r.value, CloseTag)
    ensures r.Some? ==> forall k :: from <= k < r.value ==> !MatchesAt(s, k, CloseTag)
    ensures r.None? ==> forall k :: from <= k ==> !MatchesAt(s, k, CloseTag)
  {
    if from + |CloseTag| > |s| then None
    else if MatchesAt(s, from, CloseTag) then Some(from)
    else FindCloseTag(s, from + 1)
  }

  /** The regex anchored at position `p`: the one match starting there, if any. */
  function MatchAt(s: string, p: nat): (r: Option<Block>)
    ensures r.Some? ==> r.value.start == p && Spans(s, r.value)
  {
    if !MatchesAt(s, p, OpenPrefix) then None
    else if p + |OpenPrefix| < |s| && IsWordChar(s[p + |OpenPrefix|]) then None
    else
      match FindTagEnd(s, p + |OpenPrefix|)
      case None => None
      case Some(gt) =>
        match FindCloseTag(s, gt + 1)
        case None => None
        case Some(c) => Some(Block(p, gt + 1, c, c + |CloseTag|))
  }

  /** What the split produces: the markup left over, the scripts in order, and the matches. */
  datatype SplitOutput = SplitOutput(markup: string, scripts: seq<string>, blocks: seq<Block>)

  /** The output `done` produced so far, followed by the output `rest` of the remaining scan. */
  function Then(done: SplitOutput, rest: SplitOutput): SplitOutput {
    SplitOutput(done.markup + rest.markup, done.scripts + rest.scripts, done.blocks + rest.blocks)
  }

  /**
   * The global replace with the text from `last` on not yet copied to the markup and the search
   * resuming at `i`: each match copies the pending text before it, records its content, and
   * moves both positions past itself; at the end the pending tail is copied.
   */
  function SplitFrom(s: string, last: nat, i: nat): (r: SplitOutput)
    requires last <= i <= |s|
    decreases |s| - i
    ensures |r.scripts| == |r.blocks|
  {
    if i == |s| then SplitOutput(s[last..], [], [])
    else
      match MatchAt(s, i)
      case None => SplitFrom(s, last, i + 1)
      case Some(b) => Then(SplitOutput(s[last..i], [s[b.open..b.close]], [b]), SplitFrom(s, b.end, b.end))
  }

  /**
   * The split of a whole response text: one script per block removed, markup
   * no longer than the text, and the text itself when nothing is removed.
   */
  function Split(s: string): (r: SplitOutput)
    ensures |r.scripts| == |r.blocks|
    ensures |r.markup| <= |s|
    ensures r.blocks == [] ==> r.markup == s
  {
    var r := SplitFrom(s, 0, 0);
    SplitFromMarkupIsGaps(s, 0, 0);
    GapsAndBlocksRebuildText(s, 0, r.blocks);
    InterleaveLength(Gaps(s, 0, r.blocks), BlockTexts(s, 0, r.blocks));
    assert s[0..] == s;
    assert r.blocks == [] ==> Concat(Gaps(s, 0, r.blocks)) == s + Concat([]);
    r
  }

  /** A position where the regex does not match leaves the output unchanged. */
  lemma SkipStep(s: string, last: nat, i: nat, done: SplitOutput)
    requires last <= i < |s| && MatchAt(s, i).None?
    ensures Then(done, SplitFrom(s, last, i)) == Then(done, SplitFrom(s, last, i + 1))
  {
  }

  /** Appending outputs is associative. */
  lemma ThenAssociative(a: SplitOutput, b: SplitOutput, c: SplitOutput)
    ensures Then(a, Then(b, c)) == Then(Then(a, b), c)
  {
    assert a.markup + (b.markup + c.markup) == (a.markup + b.markup) + c.markup;
    assert a.scripts + (b.scripts + c.scripts) == (a.scripts + b.scripts) + c.scripts;
    assert a.blocks + (b.blocks + c.blocks) == (a.blocks + b.blocks) + c.blocks;
  }

  /** A match at the search position flushes the pending text and records its content. */
  lemma MatchStep(s: string, last: nat, i: nat, done: SplitOutput, b: Block)
    requires last <= i < |s| && MatchAt(s, i) == Some(b)
    ensures Then(done, SplitFrom(s, last, i))
         == Then(Then(done, SplitOutput(s[last..i], [s[b.open..b.close]], [b])), SplitFrom(s, b.end, b.end))
  {
    ThenAssociative(done, SplitOutput(s[last..i], [s[b.open..b.close]], [b]), SplitFrom(s, b.end, b.end));
  }

  /**
   * The `replace` call with its pushing callback: a left-to-right pass that copies the text
   * between matches into the markup and appends each match's content to `scripts`.
   */
  method SplitScripts(text: string) returns (markup: string, scripts: seq<string>, blocks: seq<Block>)
    ensures SplitOutput(markup, scripts, blocks) == Split(text)
  {
    markup, scripts, blocks := "", [], [];
    var i: nat, last: nat := 0, 0;
    while i < |text|
      invariant last <= i <= |text|
      invariant Then(SplitOutput(markup, scripts, blocks), SplitFrom(text, last, i)) == Split(text)
      decreases |text| - i
    {
      var m := MatchAt(text, i);
      if m.None? {
        SkipStep(text, last, i, SplitOutput(markup, scripts, blocks));
        i := i + 1;
      } else {
        var b := m.value;
        MatchStep(text, last, i, SplitOutput(markup, scripts, blocks), b);
        markup, scripts, blocks := markup + text[last..i], scripts + [text[b.open..b.close]], blocks + [b];
        i, last := b.end, b.end;
      }
    }
    markup := markup + text[last..];
  }

  // ----- What the regex matches -----

  /** At a fixed start the regex has at most one match: `[^>]*` and the lazy group leave no choice. */
  lemma BlockAtStartUnique(s: string, b1: Block, b2: Block)
    requires IsBlockAt(s, b1) && IsBlockAt(s, b2) && b1.start == b2.start
    ensures b1 == b2
  {
    assert s[b1.open - 1] == '>' && s[b2.open - 1] == '>';
    assert b1.open == b2.open;
    assert MatchesAt(s, b1.close, CloseTag) && MatchesAt(s, b2.close, CloseTag);
  }

  /** `MatchAt` finds exactly the regex match that starts at `p`, and reports none when there is none. */
  lemma MatchAtIsRegexMatch(s: string, p: nat, b: Block)
    ensures MatchAt(s, p) == Some(b) <==> b.start == p && IsBlockAt(s, b)
  {
    if MatchAt(s, p) == Some(b) {
      MatchAtSound(s, p);
    }
    if b.start == p && IsBlockAt(s, b) {
      MatchAtComplete(s, b);
    }
  }

  /** What `MatchAt` finds is a regex match. */
  lemma MatchAtSound(s: string, p: nat)
    requires MatchAt(s, p).Some?
    ensures IsBlockAt(s, MatchAt(s, p).value)
  {
    var b := MatchAt(s, p).value;
    var gt := FindTagEnd(s, p + |OpenPrefix|).value;
    assert FindCloseTag(s, gt + 1) == Some(b.close);
  }

  /** `MatchAt` finds every regex match at its start. */
  lemma MatchAtComplete(s: string, b: Block)
    requires IsBlockAt(s, b)
    ensures MatchAt(s, b.start) == Some(b)
  {
    assert MatchesAt(s, b.start, OpenPrefix);
    assert s[b.open - 1] == '>';
    var tagEnd := FindTagEnd(s, b.start + |OpenPrefix|);
    if tagEnd.Some? {
      assert s[tagEnd.value] == '>';
    }
    assert tagEnd == Some(b.open - 1);
    assert MatchesAt(s, b.close, CloseTag);
    var closeAt := FindCloseTag(s, b.open);
    if closeAt.Some? {
      assert MatchesAt(s, closeAt.value, CloseTag);
    }
    assert closeAt == Some(b.close);
  }

  // ----- The matches the scan removes -----

  /**
   * `bs` is the sequence of matches a global regex search finds from position `from`: each is
   * the leftmost match starting at or after the end of the one before, and after the last one
   * no match starts.
   */
  ghost predicate LeftmostMatches(s: string, from: nat, bs: seq<Block>)
    decreases |bs|
  {
    if bs == [] then
      forall b :: IsBlockAt(s, b) ==> b.start < from
    else
      && IsBlockAt(s, bs[0])
      && from <= bs[0].start
      && (forall b :: IsBlockAt(s, b) && from <= b.start ==> bs[0].start <= b.start)
      && LeftmostMatches(s, bs[0].end, bs[1..])
  }

  /** Where no match starts, the search may as well begin one position later. */
  lemma LeftmostMatchesSkip(s: string, i: nat, bs: seq<Block>)
    requires forall b :: IsBlockAt(s, b) ==> b.start != i
    ensures LeftmostMatches(s, i, bs) <==> LeftmostMatches(s, i + 1, bs)
  {
    if bs != [] {
      assert IsBlockAt(s, bs[0]) ==> bs[0].start != i;
    }
  }

  /** Where a match starts, the search finds that match first and resumes after it. */
  lemma LeftmostMatchesTake(s: string, b: Block, bs: seq<Block>)
    requires IsBlockAt(s, b)
    ensures LeftmostMatches(s, b.start, bs)
       <==> bs != [] && bs[0] == b && LeftmostMatches(s, b.end, bs[1..])
  {
    if bs != [] && LeftmostMatches(s, b.start, bs) {
      BlockAtStartUnique(s, b, bs[0]);
    }
  }

  /** The scan removes exactly the leftmost successive matches. */
  lemma {:induction false} SplitFromFindsLeftmostMatches(s: string, last: nat, i: nat)
    requires last <= i <= |s|
    decreases |s| - i
    ensures LeftmostMatches(s, i, SplitFrom(s, last, i).blocks)
  {
    if i < |s| {
      match MatchAt(s, i)
      case None =>
        SplitFromFindsLeftmostMatches(s, last, i + 1);
        LeftmostMatchesBeforeMiss(s, i, SplitFrom(s, last, i + 1).blocks);
      case Some(b) =>
        SplitFromFindsLeftmostMatches(s, b.end, b.end);
        var rest := SplitFrom(s, b.end, b.end).blocks;
        assert SplitFrom(s, last, i).blocks == [b] + rest;
        LeftmostMatchesBeforeHit(s, i, b, rest);
    }
  }

  /** Where the scanner finds no match, a leftmost-match sequence from one position later starts here too. */
  lemma LeftmostMatchesBeforeMiss(s: string, i: nat, bs: seq<Block>)
    requires MatchAt(s, i).None? && LeftmostMatches(s, i + 1, bs)
    ensures LeftmostMatches(s, i, bs)
  {
    forall b | IsBlockAt(s, b) ensures b.start != i {
      MatchAtIsRegexMatch(s, i, b);
    }
    LeftmostMatchesSkip(s, i, bs);
  }

  /** Where the scanner finds a match, it heads the leftmost-match sequence from there. */
  lemma LeftmostMatchesBeforeHit(s: string, i: nat, b: Block, rest: seq<Block>)
    requires MatchAt(s, i) == Some(b) && LeftmostMatches(s, b.end, rest)
    ensures LeftmostMatches(s, i, [b] + rest)
  {
    MatchAtIsRegexMatch(s, i, b);
    assert ([b] + rest)[1..] == rest;
    LeftmostMatchesTake(s, b, [b] + rest);
  }

  /** Where the scanner finds no match, a leftmost-match sequence may begin one position later. */
  lemma LeftmostMatchesPastMiss(s: string, i: nat, bs: seq<Block>)
    requires MatchAt(s, i).None? && LeftmostMatches(s, i, bs)
    ensures LeftmostMatches(s, i + 1, bs)
  {
    forall b | IsBlockAt(s, b) ensures b.start != i {
      MatchAtIsRegexMatch(s, i, b);
    }
    LeftmostMatchesSkip(s, i, bs);
  }

  /** Where the scanner finds a match, a leftmost-match sequence begins with it. */
  lemma LeftmostMatchesAtHit(s: string, i: nat, b: Block, bs: seq<Block>)
    requires MatchAt(s, i) == Some(b) && LeftmostMatches(s, i, bs)
    ensures bs != [] && bs == [b] + bs[1..] && LeftmostMatches(s, b.end, bs[1..])
  {
    MatchAtIsRegexMatch(s, i, b);
    LeftmostMatchesTake(s, b, bs);
  }

  /** No other sequence of matches satisfies the leftmost-first description. */
  lemma {:induction false} LeftmostMatchesAreUnique(s: string, last: nat, i: nat, bs: seq<Block>)
    requires last <= i <= |s|
    requires LeftmostMatches(s, i, bs)
    decreases |s| - i
    ensures bs == SplitFrom(s, last, i).blocks
  {
    if i < |s| {
      match MatchAt(s, i)
      case None =>
        LeftmostMatchesPastMiss(s, i, bs);
        LeftmostMatchesAreUnique(s, last, i + 1, bs);
      case Some(b) =>
        LeftmostMatchesAtHit(s, i, b, bs);
        LeftmostMatchesAreUnique(s, b.end, b.end, bs[1..]);
    }
  }

  /**
   * The blocks the split removes are exactly the successive leftmost regex matches, in
   * encounter order.
   */
  lemma SplitRemovesLeftmostMatches(s: string, bs: seq<Block>)
    ensures LeftmostMatches(s, 0, bs) <==> bs == Split(s).blocks
  {
    SplitFromFindsLeftmostMatches(s, 0, 0);
    if LeftmostMatches(s, 0, bs) {
      LeftmostMatchesAreUnique(s, 0, 0, bs);
    }
  }

  // ----- Reconstruction -----

  /** The blocks lie inside `s`, in order, without overlap, all at or after `from`. */
  predicate Placed(s: string, from: nat, bs: seq<Block>)
    decreases |bs|
  {
    if bs == [] then from <= |s|
    else from <= bs[0].start && Spans(s, bs[0]) && Placed(s, bs[0].end, bs[1..])
  }

  /** The pieces of `s[from..]` outside the blocks: one more piece than there are blocks. */
  function Gaps(s: string, from: nat, bs: seq<Block>): (g: seq<string>)
    requires Placed(s, from, bs)
    decreases |bs|
    ensures |g| == |bs| + 1
  {
    if bs == [] then [s[from..]]
    else [s[from..bs[0].start]] + Gaps(s, bs[0].end, bs[1..])
  }

  /** The text each block covers, from its opening tag through its closing tag. */
  function BlockTexts(s: string, from: nat, bs: seq<Block>): (t: seq<string>)
    requires Placed(s, from, bs)
    decreases |bs|
    ensures |t| == |bs|
  {
    if bs == [] then []
    else [s[bs[0].start..bs[0].end]] + BlockTexts(s, bs[0].end, bs[1..])
  }

  /** The group of each block: the script content between its opening and closing tags. */
  function Groups(s: string, from: nat, bs: seq<Block>): (g: seq<string>)
    requires Placed(s, from, bs)
    decreases |bs|
    ensures |g| == |bs|
  {
    if bs == [] then []
    else [s[bs[0].open..bs[0].close]] + Groups(s, bs[0].end, bs[1..])
  }

  /** All strings of `ss`, one after another. */
  function Concat(ss: seq<string>): string
    decreases |ss|
  {
    if ss == [] then [] else ss[0] + Concat(ss[1..])
  }

  /** The total length of the strings of `ss`. */
  function TotalLength(ss: seq<string>): nat
    decreases |ss|
  {
    if ss == [] then 0 else |ss[0]| + TotalLength(ss[1..])
  }

  /** `gaps[0] + pieces[0] + gaps[1] + ... + pieces[n-1] + gaps[n]`. */
  function Interleave(gaps: seq<string>, pieces: seq<string>): string
    requires |gaps| == |pieces| + 1
    decreases |pieces|
  {
    if pieces == [] then gaps[0]
    else gaps[0] + pieces[0] + Interleave(gaps[1..], pieces[1..])
  }

  /** Putting every block back between the gaps gives back the text. */
  lemma {:induction false} GapsAndBlocksRebuildText(s: string, from: nat, bs: seq<Block>)
    requires Placed(s, from, bs)
    decreases |bs|
    ensures Interleave(Gaps(s, from, bs), BlockTexts(s, from, bs)) == s[from..]
  {
    if bs != [] {
      var b := bs[0];
      GapsAndBlocksRebuildText(s, b.end, bs[1..]);
      assert s[from..b.start] + s[b.start..b.end] + s[b.end..] == s[from..];
    }
  }

  /** Interleaving adds up the lengths of the gaps and the pieces. */
  lemma {:induction false} InterleaveLength(gaps: seq<string>, pieces: seq<string>)
    requires |gaps| == |pieces| + 1
    decreases |pieces|
    ensures |Interleave(gaps, pieces)| == |Concat(gaps)| + TotalLength(pieces)
  {
    if pieces != [] {
      InterleaveLength(gaps[1..], pieces[1..]);
    }
  }

  /** The markup of the scan is the text outside the removed blocks, in order. */
  lemma {:induction false} SplitFromMarkupIsGaps(s: string, last: nat, i: nat)
    requires last <= i <= |s|
    decreases |s| - i
    ensures var r := SplitFrom(s, last, i);
      && Placed(s, last, r.blocks)
      && Concat(Gaps(s, last, r.blocks)) == r.markup
      && Groups(s, last, r.blocks) == r.scripts
  {
    if i == |s| {
      assert Concat([s[last..]]) == s[last..] + Concat([]);
    } else {
      match MatchAt(s, i)
      case None =>
        SplitFromMarkupIsGaps(s, last, i + 1);
      case Some(b) =>
        SplitFromMarkupIsGaps(s, b.end, b.end);
        var rest := SplitFrom(s, b.end, b.end);
        var bs := [b] + rest.blocks;
        assert bs[1..] == rest.blocks;
        assert Placed(s, last, bs);
        assert Gaps(s, last, bs) == [s[last..i]] + Gaps(s, b.end, rest.blocks);
        assert Groups(s, last, bs) == [s[b.open..b.close]] + Groups(s, b.end, rest.blocks);
    }
  }

  /**
   * Splitting deletes the matched blocks and keeps everything else in order: the markup is the
   * concatenation of the gaps between blocks, the scripts are the blocks' groups in order,
   * interleaving the gaps with the blocks' texts rebuilds the input, and so the markup and the
   * blocks together are as long as the input.
   */
  lemma SplitReconstructsInput(s: string)
    ensures var r := Split(s);
      && Placed(s, 0, r.blocks)
      && Concat(Gaps(s, 0, r.blocks)) == r.markup
      && Groups(s, 0, r.blocks) == r.scripts
      && Interleave(Gaps(s, 0, r.blocks), BlockTexts(s, 0, r.blocks)) == s
      && |r.markup| + TotalLength(BlockTexts(s, 0, r.blocks)) == |s|
  {
    var r := Split(s);
    SplitFromMarkupIsGaps(s, 0, 0);
    GapsAndBlocksRebuildText(s, 0, r.blocks);
    InterleaveLength(Gaps(s, 0, r.blocks), BlockTexts(s, 0, r.blocks));
    assert s[0..] == s;
  }

  // ----- Texts without blocks -----

  /**
   * The split finds no script exactly when the regex matches nowhere in the text, and exactly
   * when the markup is the whole text unchanged.
   */
  lemma SplitWithoutMatches(s: string)
    ensures Split(s).scripts == [] <==> (forall b :: !IsBlockAt(s, b))
    ensures Split(s).scripts == [] <==> Split(s).markup == s
  {
    var r := Split(s);
    SplitRemovesLeftmostMatches(s, r.blocks);
    SplitReconstructsInput(s);
    if r.blocks != [] {
      var texts := BlockTexts(s, 0, r.blocks);
      assert texts[0] == s[r.blocks[0].start..r.blocks[0].end];
      assert TotalLength(texts) >= |texts[0]| > 0;
    } else {
      assert Concat(Gaps(s, 0, r.blocks)) == s[0..] + Concat([]);
    }
  }

  /** A text with no closing tag anywhere loses nothing: the markup is the whole text and no script is found. */
  lemma UnclosedTextIsKept(s: string)
    requires forall k :: !MatchesAt(s, k, CloseTag)
    ensures Split(s) == SplitOutput(s, [], [])
  {
    SplitWithoutMatches(s);
    assert forall b :: !IsBlockAt(s, b);
  }

  /** `t` ends with `u`. */
  predicate EndsWith(t: string, u: string) {
    |u| <= |t| && t[|t| - |u|..] == u
  }

  /** From a position with no closing tag at or after it, the scan only copies the pending text. */
  lemma {:induction false} NoCloseTagAhead(s: string, last: nat, i: nat)
    requires last <= i <= |s|
    requires forall k :: i <= k ==> !MatchesAt(s, k, CloseTag)
    decreases |s| - i
    ensures SplitFrom(s, last, i) == SplitOutput(s[last..], [], [])
  {
    if i < |s| {
      assert MatchAt(s, i).None?;
      NoCloseTagAhead(s, last, i + 1);
    }
  }

  /**
   * A `<script` at `p` sits at or after the end of every block found before it, when no closing
   * tag starts at or after `p`: a closing tag starting before `p` cannot run past it, since its
   * characters after the first are never `<`.
   */
  lemma BlockEndsBeforeOpenTag(s: string, p: nat, b: Block)
    requires MatchesAt(s, p, OpenPrefix)
    requires forall k :: p <= k ==> !MatchesAt(s, k, CloseTag)
    requires Spans(s, b) && MatchesAt(s, b.close, CloseTag)
    ensures b.end <= p
  {
    assert b.close < p by {
      assert p <= b.close ==> !MatchesAt(s, b.close, CloseTag);
    }
    assert Lower(s[p]) == '<' by {
      assert Lower(s[p + 0]) == OpenPrefix[0];
    }
    forall j | b.close < j < b.end
      ensures Lower(s[j]) != '<'
    {
      assert Lower(s[b.close + (j - b.close)]) == CloseTag[j - b.close];
    }
  }

  /** Text put before a text that ends with `u` still ends with `u`. */
  lemma EndsWithAfter(t: string, rest: string, u: string)
    requires EndsWith(rest, u)
    ensures EndsWith(t + rest, u)
  {
    assert (t + rest)[|t + rest| - |u|..] == rest[|rest| - |u|..];
  }

  /** No closing tag starts at or after `p`. */
  ghost predicate NoCloseTagFrom(s: string, p: nat) {
    forall k :: p <= k ==> !MatchesAt(s, k, CloseTag)
  }

  /** What the scan from `last` and `i` keeps of an open tag at `p` that is never closed. */
  predicate KeepsTagAt(s: string, p: nat, r: SplitOutput) {
    && p <= |s|
    && (forall j :: 0 <= j < |r.blocks| ==> r.blocks[j].end <= p)
    && EndsWith(r.markup, s[p..])
  }

  /** The scan up to an open tag that is never closed leaves the text from that tag on in the markup. */
  lemma {:induction false} UnclosedTagFrom(s: string, p: nat, last: nat, i: nat)
    requires MatchesAt(s, p, OpenPrefix) && NoCloseTagFrom(s, p)
    requires last <= i <= p
    decreases |s| - i
    ensures KeepsTagAt(s, p, SplitFrom(s, last, i))
  {
    if i == p {
      KeepsTagAtItself(s, p, last);
    } else {
      match MatchAt(s, i)
      case None =>
        UnclosedTagFrom(s, p, last, i + 1);
      case Some(b) =>
        assert b.end <= p by {
          MatchAtSound(s, i);
          BlockEndsBeforeOpenTag(s, p, b);
        }
        UnclosedTagFrom(s, p, b.end, b.end);
        var rest := SplitFrom(s, b.end, b.end);
        assert SplitFrom(s, last, i) == Then(SplitOutput(s[last..i], [s[b.open..b.close]], [b]), rest);
        KeepsTagAfterBlock(s, p, s[last..i], s[b.open..b.close], b, rest);
    }
  }

  /** Reaching the open tag, the scan copies everything from the pending position on. */
  lemma KeepsTagAtItself(s: string, p: nat, last: nat)
    requires MatchesAt(s, p, OpenPrefix) && NoCloseTagFrom(s, p)
    requires last <= p
    ensures KeepsTagAt(s, p, SplitFrom(s, last, p))
  {
    NoCloseTagAhead(s, last, p);
    SuffixEndsWith(s, last, p);
  }

  /** The text from `a` on ends with the text from `b` on, for `a` at or before `b`. */
  lemma SuffixEndsWith(s: string, a: nat, b: nat)
    requires a <= b <= |s|
    ensures EndsWith(s[a..], s[b..])
  {
    assert s[a..][|s[a..]| - |s[b..]|..] == s[b..];
  }

  /** A block that ends before the open tag, put before the rest of the scan, keeps what the rest keeps. */
  lemma KeepsTagAfterBlock(s: string, p: nat, pending: string, group: string, b: Block, rest: SplitOutput)
    requires b.end <= p && KeepsTagAt(s, p, rest)
    ensures KeepsTagAt(s, p, Then(SplitOutput(pending, [group], [b]), rest))
  {
    var r := Then(SplitOutput(pending, [group], [b]), rest);
    assert r.blocks == [b] + rest.blocks;
    EndsWithAfter(pending, rest.markup, s[p..]);
  }

  /**
   * A `<script` with no closing tag after it removes nothing from there on, whatever blocks
   * closed before it: every block found ends at or before it, no script comes from it, and the
   * markup ends with the whole text from that tag on.
   */
  lemma UnclosedTagIsKept(s: string, p: nat)
    requires MatchesAt(s, p, OpenPrefix)
    requires forall k :: p <= k ==> !MatchesAt(s, k, CloseTag)
    ensures forall j :: 0 <= j < |Split(s).blocks| ==> Split(s).blocks[j].end <= p
    ensures EndsWith(Split(s).markup, s[p..])
  {
    UnclosedTagFrom(s, p, 0, 0);
  }

  /**
   * A `<script` whose tag has no `>` after it removes nothing from there on either: with no `>`
   * left, no closing tag can follow.
   */
  lemma UnterminatedTagIsKept(s: string, p: nat)
    requires MatchesAt(s, p, OpenPrefix)
    requires forall k :: p + |OpenPrefix| <= k < |s| ==> s[k] != '>'
    ensures forall j :: 0 <= j < |Split(s).blocks| ==> Split(s).blocks[j].end <= p
    ensures EndsWith(Split(s).markup, s[p..])
  {
    forall k | p <= k
      ensures !MatchesAt(s, k, CloseTag)
    {
      if k + |CloseTag| <= |s| {
        assert s[k + 8] != '>';
        assert Lower(s[k + 8]) != CloseTag[8];
      }
    }
    UnclosedTagIsKept(s, p);
  }
}

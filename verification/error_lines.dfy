// Word wrapping of agent errors: greedy, never inside a word, and bounded.
module ErrorLines {
  import opened ByteStrings
  import opened Lines

  const MAX_LINES := 6
  const WIDTH := 58
  const SPACE: byte := 32
  const ELLIPSIS: Bytes := [0x20, 0xE2, 0x80, 0xA6]

  // ----------------------------------------------------------- strings.Fields

  // Length of the leading run of bytes that begin no white space.
  function WordLen(s: Bytes): (n: nat)
    ensures n <= |s|
    ensures forall i :: 0 <= i < n ==> SpaceAtFront(s[i..]) == 0
    ensures n < |s| ==> SpaceAtFront(s[n..]) > 0
  {
    if s == [] || SpaceAtFront(s) > 0 then 0
    else
      var n := WordLen(s[1..]);
      assert forall i :: 0 < i <= n + 1 ==> s[i..] == s[1..][i - 1..];
      assert s[0..] == s;
      n + 1
  }

  function Fields(s: Bytes): seq<Bytes>
    decreases |s|
  {
    if s == [] then []
    else if SpaceAtFront(s) > 0 then Fields(s[SpaceAtFront(s)..])
    else [s[..WordLen(s)]] + Fields(s[WordLen(s)..])
  }

  // A word: not empty, and white space begins nowhere in it.
  predicate IsWord(w: Bytes) {
    w != [] && WordLen(w) == |w|
  }

  // White space is recognised by its own bytes: none of its later bytes can
  // begin white space, so white space that follows a text changes nothing in it.
  lemma SpacePrefix(u: Bytes, t: Bytes)
    requires u != []
    ensures SpaceAtFront(u) > 0 ==> SpaceAtFront(u + t) == SpaceAtFront(u)
    ensures t == [] || SpaceAtFront(t) > 0 ==> SpaceAtFront(u + t) == SpaceAtFront(u)
  {
  }

  lemma {:induction false} WordLenAppend(u: Bytes, t: Bytes)
    requires t == [] || SpaceAtFront(t) > 0
    ensures WordLen(u + t) == WordLen(u)
    decreases |u|
  {
    if u == [] {
      assert u + t == t;
    } else {
      SpacePrefix(u, t);
      assert (u + t)[1..] == u[1..] + t;
      WordLenAppend(u[1..], t);
    }
  }

  lemma {:induction false} FieldsAreWords(s: Bytes)
    ensures forall w :: w in Fields(s) ==> IsWord(w)
    decreases |s|
  {
    if s == [] {
    } else if SpaceAtFront(s) > 0 {
      FieldsAreWords(s[SpaceAtFront(s)..]);
    } else {
      FieldsAreWords(s[WordLen(s)..]);
      PrefixIsWord(s, WordLen(s));
    }
  }

  lemma {:induction false} PrefixIsWord(s: Bytes, n: nat)
    requires 0 < n <= |s| && forall i :: 0 <= i < n ==> SpaceAtFront(s[i..]) == 0
    ensures IsWord(s[..n])
    decreases n
  {
    assert s[0..] == s && s[..n] + s[n..] == s;
    SpacePrefix(s[..n], s[n..]);
    if n > 1 {
      assert forall i :: 0 <= i < n - 1 ==> s[1..][i..] == s[i + 1..];
      PrefixIsWord(s[1..], n - 1);
      assert s[..n][1..] == s[1..][..n - 1];
    }
  }

  // Splitting a line of words joined by blanks gives the words back.
  lemma {:induction false} FieldsUndoJoin(words: seq<Bytes>)
    requires forall w :: w in words ==> IsWord(w)
    ensures Fields(Join(words, [SPACE])) == words
    decreases |words|
  {
    hide SpaceAtFront, WordLen, Fields, IsWord;
    if words == [] {
      assert Fields([]) == [] by { FieldsOfNothing(); }
    } else if |words| == 1 {
      assert words[0] in words && words[0] + [] == words[0] && words == [words[0]] + [];
      FieldsOfNothing();
      FieldsCons(words[0], []);
    } else {
      var w, more := words[0], Join(words[1..], [SPACE]);
      assert w in words && words == [w] + words[1..];
      BlankThen(more);
      FieldsCons(w, [SPACE] + more);
      assert Join(words, [SPACE]) == w + ([SPACE] + more);
      FieldsUndoJoin(words[1..]);
    }
  }

  lemma FieldsOfNothing()
    ensures Fields([]) == []
  {
  }

  lemma FieldsCons(w: Bytes, tail: Bytes)
    requires IsWord(w) && (tail == [] || SpaceAtFront(tail) > 0)
    ensures Fields(w + tail) == [w] + Fields(tail)
  {
    SpacePrefix(w, tail);
    WordLenAppend(w, tail);
    assert (w + tail)[..|w|] == w && (w + tail)[|w|..] == tail;
  }

  lemma BlankThen(t: Bytes)
    ensures SpaceAtFront([SPACE] + t) == 1 && Fields([SPACE] + t) == Fields(t)
  {
    assert ([SPACE] + t)[1..] == t;
  }

  // ---------------------------------------------------------------- wrapWords

  type Group = seq<Bytes>

  function Flatten(groups: seq<Group>): seq<Bytes> {
    if groups == [] then [] else groups[0] + Flatten(groups[1..])
  }

  function Line(g: Group): Bytes {
    Join(g, [SPACE])
  }

  // A line may hold one word of any length, or several that fit.
  ghost predicate Fits(g: Group, width: int) {
    g != [] && (|g| > 1 ==> |Line(g)| <= width)
  }

  // A way of breaking the words into lines that is allowed at this width.
  ghost predicate Breaking(groups: seq<Group>, words: seq<Bytes>, width: int) {
    Flatten(groups) == words && forall g :: g in groups ==> Fits(g, width)
  }

  // The greedy loop with `cur` the open line and `rest` still to place.
  function Greedy(cur: Group, rest: seq<Bytes>, width: int): seq<Group>
    decreases |rest|
  {
    if rest == [] then [cur]
    else if |Line(cur)| + 1 + |rest[0]| > width then [cur] + Greedy([rest[0]], rest[1..], width)
    else Greedy(cur + [rest[0]], rest[1..], width)
  }

  function LinesOf(groups: seq<Group>): seq<Bytes> {
    if groups == [] then [] else [Line(groups[0])] + LinesOf(groups[1..])
  }

  method WrapWords(s: Bytes, width: int) returns (lines: seq<Bytes>)
    ensures lines == Wrapped(s, width)
  {
    var words := Fields(s);
    if |words| == 0 {
      return [];
    }
    lines := [];
    var cur := words[0];
    ghost var open := [words[0]];
    for i := 1 to |words|
      invariant open != [] && cur == Line(open)
      invariant Wrapped(s, width) == lines + LinesOf(Greedy(open, words[i..], width))
    {
      var w := words[i];
      assert words[i..][1..] == words[i + 1..];
      if |cur| + 1 + |w| > width {
        assert lines + ([cur] + LinesOf(Greedy([w], words[i + 1..], width)))
            == lines + [cur] + LinesOf(Greedy([w], words[i + 1..], width));
        lines := lines + [cur];
        cur := w;
        open := [w];
        continue;
      }
      LineSnoc(open, w);
      cur := cur + ([SPACE] + w);
      open := open + [w];
    }
    assert LinesOf([open]) == [cur];
    lines := lines + [cur];
  }

  function Wrapped(s: Bytes, width: int): seq<Bytes> {
    if Fields(s) == [] then [] else LinesOf(Greedy([Fields(s)[0]], Fields(s)[1..], width))
  }

  lemma {:induction false} LineSnoc(g: Group, w: Bytes)
    requires g != []
    ensures Line(g + [w]) == Line(g) + ([SPACE] + w)
    decreases |g|
  {
    if |g| == 1 {
      assert (g + [w])[1..] == [w];
      assert Line(g + [w]) == g[0] + [SPACE] + Line([w]);
    } else {
      assert (g + [w])[1..] == g[1..] + [w];
      LineSnoc(g[1..], w);
      assert Line(g + [w]) == g[0] + [SPACE] + (Line(g[1..]) + ([SPACE] + w));
    }
  }

  // Greedy breaks legally: same words, same order, every shared line fits.
  lemma {:induction false} GreedyIsBreaking(cur: Group, rest: seq<Bytes>, width: int)
    requires Fits(cur, width)
    ensures Breaking(Greedy(cur, rest, width), cur + rest, width)
    decreases |rest|
  {
    var out := Greedy(cur, rest, width);
    if rest == [] {
      assert Flatten([cur]) == cur + Flatten([]);
      assert cur + rest == cur;
    } else if |Line(cur)| + 1 + |rest[0]| > width {
      GreedyIsBreaking([rest[0]], rest[1..], width);
      assert [rest[0]] + rest[1..] == rest;
      assert out[0] == cur && out[1..] == Greedy([rest[0]], rest[1..], width);
    } else {
      LineSnoc(cur, rest[0]);
      GreedyIsBreaking(cur + [rest[0]], rest[1..], width);
      assert cur + [rest[0]] + rest[1..] == cur + rest;
    }
  }

  // --------------------------------------------------------------- optimality

  lemma {:induction false} LineSuffix(g: Group, n: nat)
    requires n < |g|
    ensures |Line(g[n..])| <= |Line(g)|
    decreases n
  {
    if n == 0 {
      assert g[0..] == g;
    } else {
      LineSuffix(g[1..], n - 1);
      assert g[1..][n - 1..] == g[n..];
    }
  }

  lemma {:induction false} LinePrefix(g: Group, n: nat)
    requires 0 < n <= |g|
    ensures |Line(g[..n])| <= |Line(g)|
    decreases |g| - n
  {
    if n == |g| {
      assert g[..n] == g;
    } else {
      LinePrefix(g, n + 1);
      assert g[..n + 1] == g[..n] + [g[n]];
      LineSnoc(g[..n], g[n]);
    }
  }

  // Dropping the first n words of a breaking leaves a breaking of the others
  // that needs no more lines, and fewer once the whole first line is gone.
  lemma {:induction false} DropWords(groups: seq<Group>, words: seq<Bytes>, width: int, n: nat)
      returns (out: seq<Group>)
    requires Breaking(groups, words, width) && n <= |words|
    ensures Breaking(out, words[n..], width) && |out| <= |groups|
    ensures groups != [] && |groups[0]| <= n ==> |out| < |groups|
    decreases |groups|
  {
    if groups == [] {
      out := [];
      return;
    }
    var g, rest := groups[0], groups[1..];
    var tail := Flatten(rest);
    assert words == g + tail && g in groups;
    assert forall x :: x in rest ==> x in groups;
    if |g| <= n {
      assert words[n..] == tail[n - |g|..];
      out := DropWords(rest, tail, width, n - |g|);
    } else {
      LineSuffix(g, n);
      out := [g[n..]] + rest;
      assert out[1..] == rest;
      assert words[n..] == g[n..] + tail;
    }
  }

  // No allowed breaking of the same words uses fewer lines than greedy does.
  lemma {:induction false} GreedyIsOptimal(cur: Group, rest: seq<Bytes>, width: int, other: seq<Group>)
    requires Fits(cur, width) && Breaking(other, cur + rest, width)
    ensures |Greedy(cur, rest, width)| <= |other|
    decreases |rest|
  {
    assert cur + rest != [] == Flatten([]);
    if rest == [] {
    } else if |Line(cur)| + 1 + |rest[0]| <= width {
      LineSnoc(cur, rest[0]);
      assert cur + [rest[0]] + rest[1..] == cur + rest;
      GreedyIsOptimal(cur + [rest[0]], rest[1..], width, other);
    } else {
      FirstLineIsShort(cur, rest, width, other);
      var less := DropWords(other, cur + rest, width, |cur|);
      assert (cur + rest)[|cur|..] == [rest[0]] + rest[1..];
      GreedyIsOptimal([rest[0]], rest[1..], width, less);
    }
  }

  lemma FirstLineIsShort(cur: Group, rest: seq<Bytes>, width: int, other: seq<Group>)
    requires cur != [] && rest != [] && |Line(cur)| + 1 + |rest[0]| > width
    requires other != [] && Breaking(other, cur + rest, width)
    ensures |other[0]| <= |cur|
  {
    var g := other[0];
    assert g in other;
    var n := |cur| + 1;
    if |g| >= n {
      assert cur + rest == g + Flatten(other[1..]);
      assert g[..n] == (cur + rest)[..n] == cur + [rest[0]];
      LineSnoc(cur, rest[0]);
      LinePrefix(g, n);
      assert false;
    }
  }

  // A line has a word, and with more than one it keeps to the width.
  ghost predicate LineFits(l: Bytes, width: int) {
    |Fields(l)| == 1 || (|Fields(l)| > 1 && |l| <= width)
  }

  ghost function AllFields(lines: seq<Bytes>): seq<Bytes> {
    if lines == [] then [] else Fields(lines[0]) + AllFields(lines[1..])
  }

  // Wrapping, told from the text alone: reading the lines back gives exactly
  // the words of the text; a line of several words fits; and no way of
  // breaking those words that the width allows has fewer lines.
  lemma WrapIsFaithfulAndOptimal(s: Bytes, width: int)
    ensures AllFields(Wrapped(s, width)) == Fields(s)
    ensures forall l :: l in Wrapped(s, width) ==> LineFits(l, width)
    ensures forall other :: Breaking(other, Fields(s), width) ==> |Wrapped(s, width)| <= |other|
  {
    var words := Fields(s);
    if words == [] {
      return;
    }
    FieldsAreWords(s);
    var cur := [words[0]];
    assert cur + words[1..] == words;
    var groups := Greedy(cur, words[1..], width);
    GreedyIsBreaking(cur, words[1..], width);
    LinesReadBack(groups, words, width);
    forall other | Breaking(other, words, width) ensures |Wrapped(s, width)| <= |other| {
      GreedyIsOptimal(cur, words[1..], width, other);
    }
  }

  lemma {:induction false} LinesReadBack(groups: seq<Group>, words: seq<Bytes>, width: int)
    requires Breaking(groups, words, width) && forall w :: w in words ==> IsWord(w)
    ensures AllFields(LinesOf(groups)) == words && |LinesOf(groups)| == |groups|
    ensures forall l :: l in LinesOf(groups) ==> LineFits(l, width)
    decreases |groups|
  {
    if groups != [] {
      var g, tail := groups[0], Flatten(groups[1..]);
      assert words == g + tail && g in groups;
      assert forall x :: x in groups[1..] ==> x in groups;
      assert forall w :: w in g ==> w in words;
      assert forall w :: w in tail ==> w in words;
      FieldsUndoJoin(g);
      LinesReadBack(groups[1..], tail, width);
      assert LinesOf(groups)[1..] == LinesOf(groups[1..]);
    }
  }

  // ----------------------------------------------------------- agentErrorLines

  // All pieces one after the other.
  function Chain(pieces: seq<seq<Bytes>>): seq<Bytes> {
    if pieces == [] then [] else Chain(pieces[..|pieces| - 1]) + pieces[|pieces| - 1]
  }

  function Paragraphs(err: Bytes): seq<Bytes> {
    Split(TrimSpace(err))
  }

  function WrapAll(paras: seq<Bytes>): (r: seq<seq<Bytes>>)
    ensures |r| == |paras|
    ensures forall i :: 0 <= i < |paras| ==> r[i] == Wrapped(TrimSpace(paras[i]), WIDTH)
  {
    seq(|paras|, i requires 0 <= i < |paras| => Wrapped(TrimSpace(paras[i]), WIDTH))
  }

  function AllLines(err: Bytes): seq<Bytes> {
    Chain(WrapAll(Paragraphs(err)))
  }

  // All the lines, or the first six with the sixth marked as cut.
  function Bounded(all: seq<Bytes>): seq<Bytes> {
    if |all| <= MAX_LINES then all else all[..MAX_LINES - 1] + [all[MAX_LINES - 1] + ELLIPSIS]
  }

  // The inner loop: take lines until the seventh asks for room.
  method AddLines(out: seq<Bytes>, lines: seq<Bytes>) returns (r: seq<Bytes>, full: bool)
    requires |out| <= MAX_LINES
    ensures full <==> |out + lines| > MAX_LINES
    ensures r == if full then (out + lines)[..MAX_LINES] else out + lines
  {
    r, full := out, false;
    for j := 0 to |lines|
      invariant r == out + lines[..j] && |r| <= MAX_LINES
    {
      if |r| == MAX_LINES {
        assert (out + lines)[..MAX_LINES] == r;
        return r, true;
      }
      r := r + [lines[j]];
    }
    assert lines[..|lines|] == lines;
  }

  method AgentErrorLines(err: Bytes) returns (out: seq<Bytes>)
    ensures out == Bounded(AllLines(err))
  {
    out := [];
    var full := false;
    var paras := Paragraphs(err);
    ghost var pieces := WrapAll(paras);
    for i := 0 to |paras|
      invariant out == Chain(pieces[..i]) && |out| <= MAX_LINES
    {
      ChainNext(pieces, i);
      ChainGrows(pieces, i + 1);
      var para := TrimSpace(paras[i]);
      if para == [] {
        assert pieces[i] == [] && out + [] == out;
        continue;
      }
      var lines := WrapWords(para, WIDTH);
      out, full := AddLines(out, lines);
      if full {
        Overflow(Chain(pieces[..i + 1]), Chain(pieces), out);
        return out[..MAX_LINES - 1] + [out[MAX_LINES - 1] + ELLIPSIS];
      }
    }
    assert pieces[..|paras|] == pieces;
  }

  lemma Overflow(upto: seq<Bytes>, all: seq<Bytes>, out: seq<Bytes>)
    requires upto <= all && |upto| > MAX_LINES && out == upto[..MAX_LINES]
    ensures Bounded(all) == out[..MAX_LINES - 1] + [out[MAX_LINES - 1] + ELLIPSIS]
  {
    assert all[..|upto|] == upto;
    assert all[..MAX_LINES - 1] == upto[..MAX_LINES - 1] == out[..MAX_LINES - 1];
  }

  lemma ChainNext(pieces: seq<seq<Bytes>>, k: nat)
    requires k < |pieces|
    ensures Chain(pieces[..k + 1]) == Chain(pieces[..k]) + pieces[k]
  {
    assert pieces[..k + 1][..k] == pieces[..k];
  }

  lemma {:induction false} ChainGrows(pieces: seq<seq<Bytes>>, k: nat)
    requires k <= |pieces|
    ensures Chain(pieces[..k]) <= Chain(pieces)
    decreases |pieces| - k
  {
    if k < |pieces| {
      ChainGrows(pieces, k + 1);
      ChainNext(pieces, k);
      PrefixTrans(Chain(pieces[..k]), pieces[k], Chain(pieces));
    } else {
      assert pieces[..k] == pieces;
    }
  }

  lemma PrefixTrans(a: seq<Bytes>, b: seq<Bytes>, c: seq<Bytes>)
    requires a + b <= c
    ensures a <= c
  {
    assert c[..|a|] == (a + b)[..|a|] == a;
  }

  const DOTS: Bytes := [0xE2, 0x80, 0xA6]

  // The error pane, told from the error's text alone: all its lines together
  // hold the words of the error, in order. Up to six lines are shown as they
  // are; of more, the first six, with a mark behind the sixth.
  lemma PaneShowsError(err: Bytes)
    ensures AllFields(AllLines(err)) == Fields(err)
    ensures var shown := Bounded(AllLines(err));
            if |AllLines(err)| <= 6 then AllFields(shown) == Fields(err)
            else |shown| == 6 && exists n :: n < |Fields(err)| && MarkedCut(shown, Fields(err), n)
    ensures forall l :: l in AllLines(err) ==> LineFits(l, 58)
  {
    hide Fields, Wrapped, Chain, WrapAll, AllFields;
    FieldsIgnoreTrim(err);
    FieldsOfLines(TrimSpace(err));
    ParagraphsWords(err);
    if |AllLines(err)| > 6 {
      CutShows(AllLines(err));
      CutIsShorter(AllLines(err), 6);
      var n := |AllFields(AllLines(err)[..6])|;
      assert MarkedCut(Bounded(AllLines(err)), Fields(err), n);
    }
  }

  // The lines show the first n words, and the mark.
  ghost predicate MarkedCut(shown: seq<Bytes>, words: seq<Bytes>, n: int) {
    0 <= n <= |words| && AllFields(shown) == words[..n] + [DOTS]
  }

  // No line joins words of two lines of the error: the lines fall into pieces,
  // one for each line of the error, with the words of that line and no longer
  // than any breaking of them that the width allows.
  lemma LinesKeepApart(err: Bytes) returns (pieces: seq<seq<Bytes>>)
    ensures Chain(pieces) == AllLines(err) && |pieces| == |Split(TrimSpace(err))|
    ensures forall i :: 0 <= i < |pieces| ==> Shows(pieces[i], Split(TrimSpace(err))[i])
  {
    pieces := WrapAll(Paragraphs(err));
    forall i | 0 <= i < |pieces| ensures Shows(pieces[i], Paragraphs(err)[i]) {
      WrapIsFaithfulAndOptimal(TrimSpace(Paragraphs(err)[i]), WIDTH);
      FieldsIgnoreTrim(Paragraphs(err)[i]);
    }
  }

  ghost predicate Shows(piece: seq<Bytes>, line: Bytes) {
    && AllFields(piece) == Fields(line)
    && forall other :: Breaking(other, Fields(line), 58) ==> |piece| <= |other|
  }

  lemma ParagraphsWords(err: Bytes)
    ensures AllFields(AllLines(err)) == AllFields(Split(TrimSpace(err)))
    ensures forall l :: l in AllLines(err) ==> LineFits(l, WIDTH)
  {
    hide Fields, Wrapped, AllFields;
    var paras := Paragraphs(err);
    forall i | 0 <= i < |paras| ensures Faithful(WrapAll(paras)[i], paras[i]) {
      WrapIsFaithfulAndOptimal(TrimSpace(paras[i]), WIDTH);
      FieldsIgnoreTrim(paras[i]);
    }
    ChainWords(WrapAll(paras), paras);
  }

  // White space between two texts parts their words.
  lemma {:induction false} FieldsApart(u: Bytes, t: Bytes)
    requires t != [] && SpaceAtFront(t) > 0
    ensures Fields(u + t) == Fields(u) + Fields(t)
    decreases |u|
  {
    hide SpaceAtFront, WordLen;
    if u == [] {
      assert u + t == t && Fields([]) + Fields(t) == Fields(t);
    } else {
      SpacePrefix(u, t);
      WordLenAppend(u, t);
      var n := if SpaceAtFront(u) > 0 then SpaceAtFront(u) else WordLen(u);
      assert (u + t)[n..] == u[n..] + t && (u + t)[..n] == u[..n];
      FieldsApart(u[n..], t);
      if SpaceAtFront(u) == 0 {
        assert [u[..n]] + (Fields(u[n..]) + Fields(t)) == [u[..n]] + Fields(u[n..]) + Fields(t);
      }
    }
  }

  // A text has the words of its lines.
  lemma {:induction false} FieldsOfLines(s: Bytes)
    ensures AllFields(Split(s)) == Fields(s)
    decreases |s|
  {
    hide Fields;
    if LF !in s {
      assert AllFields([s]) == Fields(s) + [];
    } else {
      var i := Newline(s);
      var first, rest := s[..i], s[i + 1..];
      assert s == first + ([LF] + rest);
      NewlineIsSpace(rest);
      FieldsApart(first, [LF] + rest);
      FieldsOfLines(rest);
      assert Split(s)[1..] == Split(rest);
    }
  }

  lemma NewlineIsSpace(t: Bytes)
    ensures SpaceAtFront([LF] + t) == 1 && Fields([LF] + t) == Fields(t)
  {
    assert ([LF] + t)[1..] == t;
  }

  // The mark is a word of its own.
  lemma CutShows(all: seq<Bytes>)
    requires |all| > 6
    ensures |Bounded(all)| == 6 && AllFields(Bounded(all)) == AllFields(all[..6]) + [DOTS]
  {
    hide Fields, AllFields;
    assert all[..6] == all[..5] + [all[5]];
    AllFieldsAppend(all[..5], [all[5]]);
    AllFieldsAppend(all[..5], [all[5] + ELLIPSIS]);
    OneLineFields(all[5]);
    OneLineFields(all[5] + ELLIPSIS);
    EllipsisIsWord(all[5]);
  }

  lemma OneLineFields(l: Bytes)
    ensures AllFields([l]) == Fields(l)
  {
    assert AllFields([l]) == Fields(l) + [];
  }

  lemma EllipsisIsWord(l: Bytes)
    ensures Fields(l + ELLIPSIS) == Fields(l) + [DOTS]
  {
    assert ELLIPSIS == [SPACE] + DOTS && SpaceAtFront(ELLIPSIS) == 1 && ELLIPSIS[1..] == DOTS;
    FieldsApart(l, ELLIPSIS);
    DotsAreWord();
    BlankThen(DOTS);
  }

  lemma DotsAreWord()
    ensures Fields(DOTS) == [DOTS]
  {
    assert DOTS[1..] == [0x80, 0xA6] && DOTS[1..][1..] == [0xA6] && DOTS[1..][1..][1..] == [];
    assert WordLen([0xA6]) == 1 && WordLen([0x80, 0xA6]) == 2 && WordLen(DOTS) == 3;
    FieldsCons(DOTS, []);
    assert DOTS + [] == DOTS && [DOTS] + [] == [DOTS];
  }

  // Every line has a word, so what is cut off has one.
  lemma CutIsShorter(all: seq<Bytes>, k: nat)
    requires k < |all| && forall l :: l in all ==> |Fields(l)| >= 1
    ensures AllFields(all[..k]) <= AllFields(all) && |AllFields(all[..k])| < |AllFields(all)|
  {
    hide Fields, AllFields;
    assert all == all[..k] + ([all[k]] + all[k + 1..]) && all[k] in all;
    AllFieldsAppend(all[..k], [all[k]] + all[k + 1..]);
    AllFieldsAppend([all[k]], all[k + 1..]);
    OneLineFields(all[k]);
  }

  ghost predicate Faithful(lines: seq<Bytes>, text: Bytes) {
    && AllFields(lines) == Fields(text)
    && forall l :: l in lines ==> LineFits(l, WIDTH)
  }

  lemma {:induction false} AllFieldsAppend(a: seq<Bytes>, b: seq<Bytes>)
    ensures AllFields(a + b) == AllFields(a) + AllFields(b)
    decreases |a|
  {
    if a == [] {
      assert a + b == b;
    } else {
      assert (a + b)[1..] == a[1..] + b;
      AllFieldsAppend(a[1..], b);
    }
  }

  lemma {:induction false} ChainWords(pieces: seq<seq<Bytes>>, texts: seq<Bytes>)
    requires |pieces| == |texts| && forall i :: 0 <= i < |pieces| ==> Faithful(pieces[i], texts[i])
    ensures AllFields(Chain(pieces)) == AllFields(texts)
    ensures forall l :: l in Chain(pieces) ==> LineFits(l, WIDTH)
    decreases |pieces|
  {
    if pieces != [] {
      var n := |pieces| - 1;
      ChainWords(pieces[..n], texts[..n]);
      AllFieldsAppend(Chain(pieces[..n]), pieces[n]);
      assert texts == texts[..n] + [texts[n]];
      AllFieldsAppend(texts[..n], [texts[n]]);
      assert AllFields([texts[n]]) == Fields(texts[n]) + [];
    }
  }

  // Trimming a text drops no word.
  lemma FieldsIgnoreTrim(s: Bytes)
    ensures Fields(TrimSpace(s)) == Fields(s)
  {
    FieldsIgnoreTrimLeft(s);
    FieldsIgnoreTrimRight(TrimLeft(s));
  }

  lemma {:induction false} FieldsIgnoreTrimLeft(s: Bytes)
    ensures Fields(TrimLeft(s)) == Fields(s)
    decreases |s|
  {
    if SpaceAtFront(s) > 0 {
      FieldsIgnoreTrimLeft(s[SpaceAtFront(s)..]);
    }
  }

  lemma {:induction false} FieldsDropSpace(u: Bytes, t: Bytes)
    requires SpaceAtFront(t) == |t| > 0
    ensures Fields(u + t) == Fields(u)
    decreases |u|
  {
    hide SpaceAtFront, WordLen;
    if u == [] {
      assert u + t == t && t[|t|..] == [];
    } else {
      SpacePrefix(u, t);
      WordLenAppend(u, t);
      var n := if SpaceAtFront(u) > 0 then SpaceAtFront(u) else WordLen(u);
      assert (u + t)[n..] == u[n..] + t && (u + t)[..n] == u[..n];
      FieldsDropSpace(u[n..], t);
    }
  }

  lemma SpaceAtBackIsSpace(s: Bytes)
    ensures var n := SpaceAtBack(s); n > 0 ==> SpaceAtFront(s[|s| - n..]) == n
  {
  }

  lemma {:induction false} FieldsIgnoreTrimRight(s: Bytes)
    ensures Fields(TrimRight(s)) == Fields(s)
    decreases |s|
  {
    hide Fields, SpaceAtFront;
    var n := SpaceAtBack(s);
    if n > 0 {
      SpaceAtBackIsSpace(s);
      var u, t := s[..|s| - n], s[|s| - n..];
      assert s == u + t;
      FieldsDropSpace(u, t);
      FieldsIgnoreTrimRight(u);
    }
  }
}

// From the bytes a terminal sends for a dropped file back to the file: which
// escaped paths are recognised, end to end through all the trimming.
module DroppedPaths {
  import opened Options
  import opened ByteStrings
  import opened ClientPath

  // No white space and no quote at the end.
  predicate EndsPlain(s: Bytes) {
    s != [] && SpaceAtBack(s) == 0 && !IsQuote(s[|s| - 1])
  }

  lemma {:induction false} EscapeSnoc(s: Bytes, mask: seq<bool>)
    requires |mask| == |s| > 0
    ensures var n := |s| - 1;
            Escape(s, mask) == Escape(s[..n], mask[..n]) + (if mask[n] then [BACKSLASH, s[n]] else [s[n]])
    decreases |s|
  {
    var n := |s| - 1;
    if n == 0 {
      assert s[1..] == [] && mask[1..] == [];
    } else {
      EscapeSnoc(s[1..], mask[1..]);
      assert s[1..][..n - 1] == s[..n][1..] && mask[1..][..n - 1] == mask[..n][1..];
    }
  }

  lemma EscapingInit(s: Bytes, mask: seq<bool>)
    requires Escaping(s, mask) && s != []
    ensures Escaping(s[..|s| - 1], mask[..|s| - 1])
  {
  }

  // Escaping changes neither the last byte nor, before a byte that is no ASCII
  // character, the next to last.
  lemma EscapeBack(s: Bytes, mask: seq<bool>)
    requires Escaping(s, mask) && s != []
    ensures var e := Escape(s, mask);
            && |e| >= |s| && e[|e| - 1] == s[|s| - 1]
            && (s[|s| - 1] >= 0x80 && |s| > 1 ==> e[|e| - 2] == s[|s| - 2])
            && (s[|s| - 1] >= 0x80 && |s| == 1 ==> |e| == 1)
            && (s[|s| - 1] >= 0x80 && |s| > 2 && s[|s| - 2] >= 0x80 ==> e[|e| - 3] == s[|s| - 3])
            && (s[|s| - 1] >= 0x80 && |s| == 2 && s[|s| - 2] >= 0x80 ==> |e| == 2)
    decreases |s|
  {
    EscapeSnoc(s, mask);
    EscapingInit(s, mask);
    var init, m := s[..|s| - 1], mask[..|s| - 1];
    if init != [] {
      EscapeBack(init, m);
    }
  }

  lemma EscapeKeepsSpace(s: Bytes, mask: seq<bool>)
    requires Escaping(s, mask) && s != []
    ensures SpaceAtBack(Escape(s, mask)) == 0 <==> SpaceAtBack(s) == 0
  {
    hide Escape;
    EscapeBack(s, mask);
  }

  lemma {:induction false} EscapeKeepsNewlines(s: Bytes, mask: seq<bool>)
    requires |mask| == |s|
    ensures HasNewline(Escape(s, mask)) <==> HasNewline(s)
    decreases |s|
  {
    if s != [] {
      EscapeKeepsNewlines(s[1..], mask[1..]);
      assert s == [s[0]] + s[1..];
    }
  }

  // Cutting an escaped text anywhere and unescaping what is left gives a proper
  // prefix of the text, or one with the backslash of a cut escape behind it.
  lemma {:induction false} UnescapeCut(s: Bytes, mask: seq<bool>, n: nat) returns (k: nat)
    requires Escaping(s, mask) && n < |Escape(s, mask)|
    ensures k < |s|
    ensures Unescape(Escape(s, mask)[..n]) == s[..k] || Unescape(Escape(s, mask)[..n]) == s[..k] + [BACKSLASH]
    decreases |s|
  {
    var e, rest := Escape(s, mask), Escape(s[1..], mask[1..]);
    var step := if mask[0] then 2 else 1;
    assert e[step..] == rest;
    if n < step {
      k := 0;
    } else {
      k := UnescapeCut(s[1..], mask[1..], n - step);
      assert e[..n][step..] == rest[..n - step];
      Onto(s, k, Unescape(rest[..n - step]));
      k := k + 1;
    }
  }

  lemma Onto(s: Bytes, k: nat, u: Bytes)
    requires s != [] && k < |s| - 1 && (u == s[1..][..k] || u == s[1..][..k] + [BACKSLASH])
    ensures [s[0]] + u == s[..k + 1] || [s[0]] + u == s[..k + 1] + [BACKSLASH]
  {
    assert [s[0]] + s[1..][..k] == s[..k + 1];
  }

  lemma CutIsAnother(s: Bytes, mask: seq<bool>, n: nat)
    requires Escaping(s, mask) && n < |Escape(s, mask)| && s[|s| - 1] != BACKSLASH
    ensures Unescape(Escape(s, mask)[..n]) != s
  {
    var k := UnescapeCut(s, mask, n);
    var u := Unescape(Escape(s, mask)[..n]);
    if u == s[..k] + [BACKSLASH] && |u| == |s| {
      assert u[|s| - 1] == BACKSLASH;
    }
  }

  // --------------------------------------------------------------- the trims

  // What may stand around a path: white space at either end, and inside it
  // quotes, matching or not.
  datatype Around = Around(before: seq<Bytes>, open: Bytes, close: Bytes, after: seq<Bytes>) {
    predicate Valid() {
      && (forall u :: u in before ==> IsBlank(u)) && (forall u :: u in after ==> IsBlank(u))
      && (forall c :: c in open ==> IsQuote(c)) && (forall c :: c in close ==> IsQuote(c))
    }

    function On(e: Bytes): Bytes {
      Concat(before) + (open + e + close) + Concat(after)
    }
  }

  const NOTHING := Around([], [], [], [])

  // One character of white space.
  predicate IsBlank(u: Bytes) {
    u != [] && SpaceAtFront(u) == |u|
  }

  predicate Visible(c: byte) {
    0x21 <= c <= 0x7E && !IsQuote(c)
  }

  lemma {:induction false} BlanksBefore(units: seq<Bytes>, x: Bytes)
    requires forall u :: u in units ==> IsBlank(u)
    ensures TrimLeft(Concat(units) + x) == TrimLeft(x)
    decreases |units|
  {
    hide TrimLeft, IsBlank;
    if units == [] {
      assert [] + x == x;
    } else {
      var init, u := units[..|units| - 1], units[|units| - 1];
      assert u in units && forall v :: v in init ==> v in units;
      BlanksBefore(init, u + x);
      assert Concat(units) + x == Concat(init) + (u + x);
      BlankInFront(u, x);
    }
  }

  lemma BlankInFront(u: Bytes, x: Bytes)
    requires IsBlank(u)
    ensures TrimLeft(u + x) == TrimLeft(x)
  {
    assert SpaceAtFront(u + x) == |u|;
    assert (u + x)[|u|..] == x;
  }

  lemma {:induction false} BlanksAfter(units: seq<Bytes>, x: Bytes)
    requires forall u :: u in units ==> IsBlank(u)
    ensures TrimRight(x + Concat(units)) == TrimRight(x)
    decreases |units|
  {
    hide TrimRight, IsBlank;
    if units == [] {
      assert x + [] == x;
    } else {
      var init, u := units[..|units| - 1], units[|units| - 1];
      assert u in units && forall v :: v in init ==> v in units;
      BlanksAfter(init, x);
      assert x + Concat(units) == (x + Concat(init)) + u;
      BlankBehind(x + Concat(init), u);
    }
  }

  lemma BlankBehind(x: Bytes, u: Bytes)
    requires IsBlank(u)
    ensures TrimRight(x + u) == TrimRight(x)
  {
    assert SpaceAtBack(x + u) == |u|;
    assert (x + u)[..|x|] == x;
  }

  // What begins with a visible character is trimmed at its end only, and not
  // past that character.
  lemma {:induction false} RightInside(o: Bytes, e: Bytes)
    requires e != [] && Visible(e[0])
    ensures TrimRight(o + e) == o + TrimRight(e)
    ensures TrimRight(e) != [] && (TrimRight(e) == e <==> SpaceAtBack(e) == 0)
    decreases |e|
  {
    var n := SpaceAtBack(e);
    assert SpaceAtBack(o + e) == n < |e|;
    if n > 0 {
      assert (o + e)[..|o + e| - n] == o + e[..|e| - n];
      RightInside(o, e[..|e| - n]);
      assert |TrimRight(e)| < |e|;
    }
  }

  lemma {:induction false} QuotesInFront(o: Bytes, x: Bytes)
    requires forall c :: c in o ==> IsQuote(c)
    ensures TrimQuotes(o + x) == TrimQuotes(x)
    decreases |o|
  {
    if o == [] {
      assert o + x == x;
    } else {
      assert o[0] in o && (o + x)[1..] == o[1..] + x;
      QuotesInFront(o[1..], x);
    }
  }

  lemma {:induction false} QuotesBehind(x: Bytes, o: Bytes)
    requires x != [] && Visible(x[0]) && forall c :: c in o ==> IsQuote(c)
    ensures TrimQuotes(x + o) == TrimQuotes(x)
    decreases |o|
  {
    if o == [] {
      assert x + o == x;
    } else {
      var n := |o| - 1;
      assert o[n] in o && (x + o)[..|x + o| - 1] == x + o[..n];
      QuotesBehind(x, o[..n]);
    }
  }

  lemma {:induction false} QuotesAtEnd(t: Bytes)
    requires t != [] && Visible(t[0])
    ensures TrimQuotes(t) <= t && TrimQuotes(t) != []
    ensures TrimQuotes(t) == t <==> !IsQuote(t[|t| - 1])
    decreases |t|
  {
    if IsQuote(t[|t| - 1]) {
      QuotesAtEnd(t[..|t| - 1]);
    }
  }

  // The first trim takes off the white space around.
  lemma Outside(a: Around, e: Bytes) returns (x: Bytes)
    requires a.Valid() && e != [] && Visible(e[0])
    ensures x <= e && x != [] && TrimSpace(a.On(e)) == a.open + x + a.close
    ensures x == e <==> a.close != [] || SpaceAtBack(e) == 0
  {
    hide TrimLeft, TrimRight, SpaceAtFront, SpaceAtBack;
    var body := a.open + e + a.close;
    FrontIsPlain(a, e);
    BlanksAfter(a.after, body);
    assert a.On(e) == Concat(a.before) + (body + Concat(a.after));
    BlanksBefore(a.before, body + Concat(a.after));
    FrontStays(body, Concat(a.after));
    if a.close != [] {
      x := e;
      CloseStays(a.open + e, a.close);
    } else {
      assert body == a.open + e;
      RightInside(a.open, e);
      x := TrimRight(e);
      assert a.open + x + [] == a.open + x;
    }
  }

  lemma FrontIsPlain(a: Around, e: Bytes)
    requires a.Valid() && e != [] && Visible(e[0])
    ensures var body := a.open + e + a.close; body[0] == e[0] || IsQuote(body[0])
  {
    if a.open != [] {
      assert a.open[0] in a.open;
    }
  }

  lemma FrontStays(body: Bytes, more: Bytes)
    requires body != [] && (Visible(body[0]) || IsQuote(body[0]))
    ensures TrimLeft(body + more) == body + more
  {
  }

  lemma CloseStays(x: Bytes, close: Bytes)
    requires close != [] && forall c :: c in close ==> IsQuote(c)
    ensures TrimRight(x + close) == x + close
  {
    assert close[|close| - 1] in close;
  }

  function Core(t: Bytes): Bytes {
    TrimSpace(TrimQuotes(TrimSpace(t)))
  }

  // All three trims together: they take off what stands around a text that
  // begins with a visible character, and of the text only white space and
  // quotes at its end.
  lemma CoreIsCut(a: Around, e: Bytes) returns (q: Bytes)
    requires a.Valid() && e != [] && Visible(e[0])
    ensures q <= e && q != [] && Core(a.On(e)) == q
    ensures q == e <==> EndsPlain(e)
  {
    hide TrimSpace, TrimQuotes, SpaceAtBack, IsQuote;
    var x := Outside(a, e);
    QuotesInFront(a.open, x + a.close);
    assert a.open + x + a.close == a.open + (x + a.close);
    QuotesBehind(x, a.close);
    QuotesAtEnd(x);
    var y := TrimQuotes(x);
    q := TrimmedEnd(y);
    Shrinks(e, x, y, q);
  }

  lemma TrimmedEnd(y: Bytes) returns (q: Bytes)
    requires y != [] && Visible(y[0])
    ensures q == TrimSpace(y) && q <= y && q != [] && (q == y <==> SpaceAtBack(y) == 0)
  {
    q := TrimSpace(y);
    assert SpaceAtFront(y) == 0;
    RightInside([], y);
  }

  lemma Shrinks(t: Bytes, a: Bytes, b: Bytes, q: Bytes)
    requires q <= b <= a <= t
    ensures q <= t && (q == t <==> q == b && b == a && a == t)
  {
  }

  // ---------------------------------------------------------------- end to end

  // An escaped path whose beginning the trims leave alone, and no URL: it begins
  // with a visible character or with one that is escaped.
  ghost predicate Plainly(s: Bytes, mask: seq<bool>) {
    Escaping(s, mask) && s != [] && (mask[0] || Visible(s[0])) && !(FILE_SCHEME <= Escape(s, mask))
  }

  lemma EscapeFirst(s: Bytes, mask: seq<bool>)
    requires Escaping(s, mask) && s != []
    ensures Escape(s, mask) != [] && Escape(s, mask)[0] == if mask[0] then BACKSLASH else s[0]
    ensures Plainly(s, mask) ==> Visible(Escape(s, mask)[0])
    ensures s[0] == SLASH || (s[0] == TILDE && !mask[0]) ==> Plainly(s, mask)
  {
    assert FILE_SCHEME[0] != SLASH && FILE_SCHEME[0] != TILDE;
  }

  // Cleaning gives such a path back exactly when its name ends in neither white
  // space nor a quote; if it does, they are taken off even when they were
  // escaped, and another path comes out.
  lemma CleanSeenIff(files: Files, s: Bytes, mask: seq<bool>, a: Around) returns (k: nat)
    requires Plainly(s, mask) && a.Valid()
    ensures var p := Clean(files, a.On(Escape(s, mask)));
            if EndsPlain(s) then p == s else k < |s| && p != s && (p == s[..k] || p == s[..k] + [BACKSLASH])
  {
    hide Unescape, Escape, TrimSpace, TrimQuotes, SpaceAtBack;
    var e := Escape(s, mask);
    EscapeFirst(s, mask);
    EscapeKeepsSpace(s, mask);
    EscapeLast(s, mask);
    var q := CoreIsCut(a, e);
    k := 0;
    if EndsPlain(s) {
      UnescapeInvertsEscape(s, mask);
    } else {
      assert q != e && q == e[..|q|];
      EndNotBackslash(s);
      CutIsAnother(s, mask, |q|);
      k := UnescapeCut(s, mask, |q|);
    }
  }

  // Both drop detectors trim once before they clean, which changes nothing.
  lemma CleanTrims(files: Files, content: Bytes)
    ensures Clean(files, TrimSpace(content)) == Clean(files, content)
  {
    hide Unescape, TrimQuotes;
    var l := TrimLeft(content);
    var r := TrimRight(l);
    assert r <= l && SpaceAtFront(r) == 0;
  }

  // What the trimmed content is: the quotes and the text between them, which
  // loses something only with white space at its end and no quote behind it.
  lemma Between(files: Files, s: Bytes, mask: seq<bool>, a: Around) returns (x: Bytes)
    requires Plainly(s, mask) && a.Valid()
    ensures TrimSpace(a.On(Escape(s, mask))) == a.open + x + a.close
    ensures x != [] && x[0] == Escape(s, mask)[0] && (EndsPlain(s) ==> x == Escape(s, mask))
  {
    hide Escape, SpaceAtBack;
    EscapeFirst(s, mask);
    EscapeKeepsSpace(s, mask);
    x := Outside(a, Escape(s, mask));
  }

  lemma NoNewlineInQuotes(a: Around, x: Bytes)
    requires a.Valid()
    ensures HasNewline(a.open + x + a.close) <==> HasNewline(x)
  {
  }

  // A file is recognised from its escaped path, whichever bytes the terminal
  // chose to escape and whatever white space and quotes stand around, if and
  // only if its name holds no newline and ends in neither white space nor a
  // quote.
  lemma EscapedDropSeenIff(files: Files, s: Bytes, mask: seq<bool>, a: Around)
    requires Plainly(s, mask) && a.Valid()
    ensures DroppedLocal(files, a.On(Escape(s, mask))) == Some(s)
        <==> !HasNewline(s) && EndsPlain(s) && files.isRegular(s)
  {
    hide Clean, TrimSpace, SpaceAtBack, HasNewline, Escape, IsQuote, Around.On;
    var k := CleanSeenIff(files, s, mask, a);
    CleanTrims(files, a.On(Escape(s, mask)));
    var x := Between(files, s, mask, a);
    NoNewlineInQuotes(a, x);
    EscapeKeepsNewlines(s, mask);
  }

  // The same for an absolute path typed by the terminal with no paste around
  // it, which must also be absolute to the program and more than a lone slash.
  lemma EscapedBareDropSeenIff(files: Files, s: Bytes, mask: seq<bool>, a: Around)
    requires Escaping(s, mask) && s != [] && s[0] == SLASH && a.Valid()
    ensures DroppedBare(files, a.On(Escape(s, mask))) == Some(s) <==>
      && (|s| >= 2 || a.open != [] || a.close != [])
      && !HasNewline(s) && EndsPlain(s) && files.isAbs(s) && files.isRegular(s)
  {
    hide Clean, TrimSpace, SpaceAtBack, HasNewline, Escape, IsQuote, Around.On;
    EscapeFirst(s, mask);
    var k := CleanSeenIff(files, s, mask, a);
    CleanTrims(files, a.On(Escape(s, mask)));
    var x := Between(files, s, mask, a);
    NoNewlineInQuotes(a, x);
    EscapeKeepsNewlines(s, mask);
    LooksRooted(a, x);
    EscapeLength(s, mask);
    ExpandKeeps(files, TrimSpace(a.On(Escape(s, mask))));
  }

  lemma ExpandKeeps(files: Files, t: Bytes)
    requires var p := Clean(files, t); p == [] || p[0] != TILDE
    ensures Expand(files, t) == Clean(files, t)
  {
  }

  lemma LooksRooted(a: Around, x: Bytes)
    requires a.Valid() && x != [] && (x[0] == SLASH || x[0] == TILDE)
    ensures LooksLikePath(a.open + x + a.close)
  {
    if a.open != [] {
      assert a.open[0] in a.open;
    }
  }

  lemma EscapeLength(s: Bytes, mask: seq<bool>)
    requires Escaping(s, mask) && s != []
    ensures |Escape(s, mask)| >= |s| && (|s| == 1 && !mask[0] ==> |Escape(s, mask)| == 1)
  {
    EscapeBack(s, mask);
    if |s| == 1 {
      assert Escape(s[1..], mask[1..]) == [];
    }
  }

  // A path in the home directory, dropped or typed so, is recognised as the
  // file it stands for, under the same conditions.
  lemma HomeDropSeenIff(files: Files, s: Bytes, mask: seq<bool>, a: Around, home: Bytes)
    requires Escaping(s, mask) && [TILDE, SLASH] <= s && !mask[0] && a.Valid() && files.home == Some(home)
    ensures DroppedBare(files, a.On(Escape(s, mask))) == Some(home + s[1..]) <==>
      && !HasNewline(s) && EndsPlain(s)
      && files.isAbs(home + s[1..]) && files.isRegular(home + s[1..])
  {
    hide Clean, TrimSpace, SpaceAtBack, HasNewline, Escape, IsQuote, Around.On;
    EscapeFirst(s, mask);
    var k := CleanSeenIff(files, s, mask, a);
    CleanTrims(files, a.On(Escape(s, mask)));
    var x := Between(files, s, mask, a);
    NoNewlineInQuotes(a, x);
    EscapeKeepsNewlines(s, mask);
    LooksRooted(a, x);
    EscapeLength(s, mask);
    if !EndsPlain(s) {
      CutExpands(files, s, home, k, Clean(files, a.On(Escape(s, mask))));
    }
  }

  // Where a proper prefix leads is not where the whole path leads.
  lemma CutExpands(files: Files, s: Bytes, home: Bytes, k: nat, p: Bytes)
    requires [TILDE, SLASH] <= s && k < |s| && p != s && (p == s[..k] || p == s[..k] + [BACKSLASH])
    ensures (if p == [TILDE] || [TILDE, SLASH] <= p then home + p[1..] else p) != home + s[1..]
  {
    var whole := home + s[1..];
    assert whole[|home|] == SLASH;
    if [TILDE, SLASH] <= p {
      assert p == [TILDE] + p[1..] && s == [TILDE] + s[1..];
      assert whole[|home|..] == s[1..] && (home + p[1..])[|home|..] == p[1..];
    } else {
      assert whole[|home|] in whole && SLASH !in p;
      assert p == [TILDE] ==> |home + p[1..]| < |whole|;
    }
  }

  // In the minibuffer such a path is expanded too, and the tilde alone with it.
  lemma MinibufferExpands(files: Files, s: Bytes, mask: seq<bool>, a: Around)
    requires Plainly(s, mask) && EndsPlain(s) && a.Valid()
    ensures Expand(files, a.On(Escape(s, mask))) ==
      if files.home.Some? && (s == [TILDE] || [TILDE, SLASH] <= s) then files.home.value + s[1..] else s
  {
    hide Clean, EndsPlain;
    var k := CleanSeenIff(files, s, mask, a);
  }

  // --------------------------------------------------------------- file URLs

  // What follows the scheme decodes to this, or is taken as it is.
  ghost predicate Decodes(files: Files, u: Bytes, d: Bytes) {
    files.decode(u) == Some(d) || (files.decode(u) == None && d == u)
  }

  lemma UrlIsCleaned(files: Files, u: Bytes, d: Bytes, a: Around)
    requires EndsPlain(u) && Decodes(files, u, d) && a.Valid()
    ensures Clean(files, a.On(FILE_SCHEME + u)) == Unescape(d)
  {
    hide Unescape, TrimSpace, TrimQuotes, SpaceAtBack, Around.On;
    var e := FILE_SCHEME + u;
    UrlEndsPlain(u);
    var q := CoreIsCut(a, e);
    assert e[|FILE_SCHEME|..] == u;
  }

  lemma UrlEndsPlain(u: Bytes)
    requires EndsPlain(u)
    ensures EndsPlain(FILE_SCHEME + u)
  {
  }

  lemma UrlBetween(u: Bytes, a: Around)
    requires EndsPlain(u) && a.Valid()
    ensures TrimSpace(a.On(FILE_SCHEME + u)) == a.open + (FILE_SCHEME + u) + a.close
  {
    hide TrimSpace, SpaceAtBack;
    UrlEndsPlain(u);
    var x := Outside(a, FILE_SCHEME + u);
  }

  // A file URL is decoded first: whatever the name, a file is recognised if and
  // only if the URL itself holds no newline. What the trims would take off a
  // name, a newline included, they do not see in the URL.
  lemma UrlDropSeenIff(files: Files, s: Bytes, mask: seq<bool>, u: Bytes, a: Around)
    requires Escaping(s, mask) && EndsPlain(u) && Decodes(files, u, Escape(s, mask)) && a.Valid()
    ensures DroppedLocal(files, a.On(FILE_SCHEME + u)) == Some(s)
        <==> s != [] && !HasNewline(u) && files.isRegular(s)
  {
    hide Clean, Unescape, TrimSpace, EndsPlain, HasNewline, Escape, IsQuote, Around.On;
    UrlIsCleaned(files, u, Escape(s, mask), a);
    UnescapeInvertsEscape(s, mask);
    CleanTrims(files, a.On(FILE_SCHEME + u));
    UrlBetween(u, a);
    NoNewlineInQuotes(a, FILE_SCHEME + u);
    NoNewlineInScheme(u);
  }

  lemma NoNewlineInScheme(u: Bytes)
    ensures HasNewline(FILE_SCHEME + u) <==> HasNewline(u)
  {
  }

  lemma UrlBareDropSeenIff(files: Files, s: Bytes, mask: seq<bool>, u: Bytes, a: Around)
    requires Escaping(s, mask) && EndsPlain(u) && Decodes(files, u, Escape(s, mask)) && a.Valid()
    requires [SLASH] <= s
    ensures DroppedBare(files, a.On(FILE_SCHEME + u)) == Some(s)
        <==> !HasNewline(u) && files.isAbs(s) && files.isRegular(s)
  {
    hide Clean, Unescape, TrimSpace, EndsPlain, HasNewline, Escape, IsQuote, Around.On;
    UrlIsCleaned(files, u, Escape(s, mask), a);
    UnescapeInvertsEscape(s, mask);
    CleanTrims(files, a.On(FILE_SCHEME + u));
    UrlBetween(u, a);
    NoNewlineInQuotes(a, FILE_SCHEME + u);
    NoNewlineInScheme(u);
    UrlLooksRooted(a, u);
    ExpandKeeps(files, TrimSpace(a.On(FILE_SCHEME + u)));
  }

  lemma UrlLooksRooted(a: Around, u: Bytes)
    requires a.Valid()
    ensures LooksLikePath(a.open + (FILE_SCHEME + u) + a.close)
  {
    if a.open != [] {
      assert a.open[0] in a.open;
    }
  }

  lemma EscapeLast(s: Bytes, mask: seq<bool>)
    requires Escaping(s, mask) && s != []
    ensures |Escape(s, mask)| >= |s| && Escape(s, mask)[|Escape(s, mask)| - 1] == s[|s| - 1]
  {
    EscapeBack(s, mask);
  }

  lemma EndNotBackslash(s: Bytes)
    requires s != [] && !EndsPlain(s)
    ensures s[|s| - 1] != BACKSLASH
  {
  }

  const SPACED: Bytes := [0x2F, 0x61, 0x20] // "/a "

  // So "a terminal's escaping brings the file back" is false: for a file whose
  // name ends in a space another path is looked up.
  lemma TrailingSpaceMissed(files: Files)
    requires files.isRegular(SPACED)
    ensures var mask := [false, false, true];
            && Escaping(SPACED, mask) && Escape(SPACED, mask) == [0x2F, 0x61, 0x5C, 0x20]
            && DroppedLocal(files, Escape(SPACED, mask)) != Some(SPACED)
  {
    hide DroppedLocal, HasNewline;
    var mask := [false, false, true];
    EscapeSnoc(SPACED, mask);
    assert SPACED[..2] == [0x2F, 0x61] && mask[..2] == [false, false];
    EscapeSnoc([0x2F, 0x61], [false, false]);
    assert [0x2F, 0x61][..1] == [0x2F] && [false, false][..1] == [false];
    EscapeLength([0x2F], [false]);
    assert !EndsPlain(SPACED);
    assert NOTHING.On(Escape(SPACED, mask)) == Escape(SPACED, mask);
    EscapedDropSeenIff(files, SPACED, mask, NOTHING);
  }
}

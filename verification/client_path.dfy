// Cleaning a path the operator dragged, pasted or typed, and deciding whether
// a run of input bytes is a dropped local file. The file system, the home
// directory and URL decoding are parameters.
module ClientPath {
  import opened Options
  import opened ByteStrings

  const BACKSLASH: byte := 0x5C
  const SLASH: byte := 0x2F
  const TILDE: byte := 0x7E
  const QUOTE: byte := 0x27
  const DQUOTE: byte := 0x22
  const FILE_SCHEME: Bytes := [0x66, 0x69, 0x6C, 0x65, 0x3A, 0x2F, 0x2F]

  // The set a terminal backslash-escapes in a dropped path.
  predicate ShellEscaped(c: byte) {
    || 0x20 <= c <= 0x24 || 0x26 <= c <= 0x2A || c == 0x2C
    || 0x3A <= c <= 0x40 || 0x5B <= c <= 0x5E || c == 0x60 || 0x7B <= c <= 0x7E
  }

  predicate EscapeAt(p: Bytes, i: nat) {
    i + 1 < |p| && p[i] == BACKSLASH && ShellEscaped(p[i + 1])
  }

  function Unescape(p: Bytes): Bytes {
    if p == [] then []
    else if EscapeAt(p, 0) then [p[1]] + Unescape(p[2..])
    else [p[0]] + Unescape(p[1..])
  }

  method UnescapeShellPath(p: Bytes) returns (b: Bytes)
    ensures b == Unescape(p)
  {
    if BACKSLASH !in p {
      NothingToUnescape(p);
      return p;
    }
    b := [];
    var i := 0;
    while i < |p|
      invariant 0 <= i <= |p| && Unescape(p) == b + Unescape(p[i..])
    {
      UnescapeStep(p, b, i);
      if p[i] == BACKSLASH && i + 1 < |p| && ShellEscaped(p[i + 1]) {
        i := i + 1;
      }
      b := b + [p[i]];
      i := i + 1;
    }
  }

  lemma UnescapeStep(p: Bytes, b: Bytes, i: nat)
    requires i < |p|
    ensures EscapeAt(p, i) ==> b + Unescape(p[i..]) == b + [p[i + 1]] + Unescape(p[i + 2..])
    ensures !EscapeAt(p, i) ==> b + Unescape(p[i..]) == b + [p[i]] + Unescape(p[i + 1..])
  {
    var q := p[i..];
    assert q[1..] == p[i + 1..];
    if EscapeAt(p, i) {
      assert q[2..] == p[i + 2..];
    }
  }

  // Where no backslash precedes a byte of the set (a Windows path, say) and
  // only there, the path is left exactly as it is.
  lemma {:induction false} UnescapeIdentityIff(p: Bytes)
    ensures Unescape(p) == p <==> forall i: nat :: !EscapeAt(p, i)
    ensures |Unescape(p)| <= |p|
    decreases |p|
  {
    if p == [] {
    } else if EscapeAt(p, 0) {
      UnescapeIdentityIff(p[2..]);
    } else {
      UnescapeIdentityIff(p[1..]);
      var r := Unescape(p[1..]);
      assert ([p[0]] + r == p) <==> (r == p[1..]) by {
        assert ([p[0]] + r)[1..] == r;
        assert p == [p[0]] + p[1..];
      }
      assert forall i: nat :: EscapeAt(p[1..], i) <==> EscapeAt(p, i + 1);
      assert forall i: nat :: i > 0 ==> (EscapeAt(p, i) <==> EscapeAt(p[1..], i - 1));
    }
  }

  lemma NothingToUnescape(p: Bytes)
    requires BACKSLASH !in p
    ensures Unescape(p) == p
  {
    UnescapeIdentityIff(p);
  }

  // An escaper that puts a backslash before the bytes marked in `mask`.
  function Escape(s: Bytes, mask: seq<bool>): Bytes
    requires |mask| == |s|
  {
    if s == [] then []
    else (if mask[0] then [BACKSLASH, s[0]] else [s[0]]) + Escape(s[1..], mask[1..])
  }

  // The terminal's choice of bytes to escape: every backslash, and otherwise
  // only bytes of the shell's set.
  ghost predicate Escaping(s: Bytes, mask: seq<bool>) {
    && |mask| == |s|
    && forall i :: 0 <= i < |s| ==> (s[i] == BACKSLASH ==> mask[i]) && (mask[i] ==> ShellEscaped(s[i]))
  }

  // Unescaping inverts every escaper that marks all backslashes and any choice
  // of the other shell bytes, so a dropped path comes back whichever of them
  // the terminal bothers to escape.
  lemma {:induction false} UnescapeInvertsEscape(s: Bytes, mask: seq<bool>)
    requires Escaping(s, mask)
    ensures Unescape(Escape(s, mask)) == s
    decreases |s|
  {
    if s != [] {
      UnescapeInvertsEscape(s[1..], mask[1..]);
      var e := Escape(s, mask);
      assert s == [s[0]] + s[1..];
      if mask[0] {
        assert e[2..] == Escape(s[1..], mask[1..]);
      } else {
        assert e[1..] == Escape(s[1..], mask[1..]);
      }
    }
  }

  // ------------------------------------------------------------ what is a drop

  datatype Files = Files(isRegular: Bytes -> bool, decode: Bytes -> Option<Bytes>, home: Option<Bytes>,
                         isAbs: Bytes -> bool)

  predicate IsQuote(c: byte) {
    c == QUOTE || c == DQUOTE
  }

  function TrimQuotes(s: Bytes): Bytes {
    if s == [] then []
    else if IsQuote(s[0]) then TrimQuotes(s[1..])
    else if IsQuote(s[|s| - 1]) then TrimQuotes(s[..|s| - 1])
    else s
  }

  // cleanClientPath
  function Clean(files: Files, s: Bytes): Bytes {
    var p := TrimSpace(TrimQuotes(TrimSpace(s)));
    Unescape(
      if FILE_SCHEME <= p then
        var rest := p[|FILE_SCHEME|..];
        match files.decode(rest)
        case Some(d) => d
        case None => rest
      else p)
  }

  // expandClientPath
  function Expand(files: Files, s: Bytes): Bytes {
    var p := Clean(files, s);
    if (p == [TILDE] || [TILDE, SLASH] <= p) && files.home.Some? then files.home.value + p[1..] else p
  }

  // droppedLocalFile
  function DroppedLocal(files: Files, content: Bytes): Option<Bytes> {
    var t := TrimSpace(content);
    if t == [] || HasNewline(t) then None
    else
      var p := Clean(files, t);
      if p != [] && files.isRegular(p) then Some(p) else None
  }

  predicate LooksLikePath(raw: Bytes) {
    [SLASH] <= raw || [TILDE] <= raw || [QUOTE] <= raw || [DQUOTE] <= raw || FILE_SCHEME <= raw
  }

  // droppedUnbracketedFile
  function DroppedBare(files: Files, content: Bytes): Option<Bytes> {
    var raw := TrimSpace(content);
    if |raw| < 2 || HasNewline(raw) || !LooksLikePath(raw) then None
    else
      var p := Expand(files, raw);
      if files.isAbs(p) && files.isRegular(p) then Some(p) else None
  }

  // A lone keystroke and an escape sequence are never taken for a typed path.
  lemma BareNeedsPath(files: Files, content: Bytes)
    ensures |content| < 2 ==> DroppedBare(files, content) == None
    ensures content != [] && SpaceAtFront(content) == 0 && !LooksLikePath(content[..1]) && content[0] != FILE_SCHEME[0]
      ==> DroppedBare(files, content) == None
  {
    if content != [] && SpaceAtFront(content) == 0 {
      var raw := TrimSpace(content);
      assert TrimLeft(content) == content && raw <= content;
      if |raw| > 0 {
        assert raw[0] == content[0] == content[..1][0];
      }
    }
  }
}

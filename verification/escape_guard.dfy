// The guard against escape sequences that a terminal delivers key by key:
// three states and a time, and an exact account of which keys it drops.
module EscapeGuard {

  const WINDOW := 50 // milliseconds

  datatype Phase = Idle | SawEsc | SawIntro
  datatype Guard = Guard(phase: Phase, at: int)

  datatype Key = Key(text: string, time: int)

  predicate IsIntro(s: string) {
    s == "[" || s == "O"
  }

  predicate IsTail(s: string) {
    s in {"A", "B", "C", "D", "H", "F", "P", "Q", "R", "S", "Z", "~"}
  }

  predicate IsParam(s: string) {
    |s| == 1 && ('0' <= s[0] <= '9' || s[0] == ';')
  }

  // swallowEscapeSequenceByte: the new state, and whether the key is dropped.
  function Swallow(g: Guard, k: Key): (Guard, bool) {
    if k.text == "esc" then (Guard(SawEsc, k.time), false)
    else if g.phase == Idle || k.time - g.at > WINDOW then (g.(phase := Idle), false)
    else if g.phase == SawEsc && IsIntro(k.text) then (Guard(SawIntro, k.time), true)
    else if g.phase == SawIntro && IsTail(k.text) then (g.(phase := Idle), true)
    else if g.phase == SawIntro && IsParam(k.text) then (g.(at := k.time), true)
    else if g.phase == SawEsc && IsTail(k.text) then (g.(phase := Idle), true)
    else (g.(phase := Idle), false)
  }

  // The guard after the first n keys of a history, from any earlier state.
  function After(start: Guard, keys: seq<Key>, n: nat): Guard
    requires n <= |keys|
  {
    if n == 0 then start else Swallow(After(start, keys, n - 1), keys[n - 1]).0
  }

  predicate Dropped(start: Guard, keys: seq<Key>, i: nat)
    requires i < |keys|
  {
    Swallow(After(start, keys, i), keys[i]).1
  }

  // ----------------------------------------------- the language of a sequence

  // An opened sequence that has not ended: intro (digit | ';')*
  ghost predicate Open(w: seq<Key>) {
    w != [] && IsIntro(w[0].text) && forall i :: 1 <= i < |w| ==> IsParam(w[i].text)
  }

  // A non-empty prefix of intro (digit | ';')* tail, or a tail on its own.
  ghost predicate Fragment(w: seq<Key>) {
    Open(w) || (|w| > 1 && Open(w[..|w| - 1]) && IsTail(w[|w| - 1].text)) || (|w| == 1 && IsTail(w[0].text))
  }

  // Keys a..b, the first an ESC, no other ESC, every gap within the window.
  ghost predicate Burst(keys: seq<Key>, a: int, b: int) {
    && 0 <= a <= b < |keys| && keys[a].text == "esc"
    && (forall i :: a < i <= b ==> keys[i].text != "esc")
    && (forall i :: a < i <= b ==> keys[i].time - keys[i - 1].time <= WINDOW)
  }

  // The keys after the burst's ESC.
  ghost function Since(keys: seq<Key>, a: int, b: int): seq<Key>
    requires 0 <= a <= b < |keys|
  {
    keys[a + 1..b + 1]
  }

  // What the three states mean, n keys into a history.
  ghost predicate Means(keys: seq<Key>, n: nat, g: Guard)
    requires n <= |keys|
  {
    && (g.phase != Idle ==> n > 0 && g.at == keys[n - 1].time)
    && (g.phase == SawEsc <==> n > 0 && keys[n - 1].text == "esc")
    && (g.phase == SawIntro <==> OpenAt(keys, n - 1))
  }

  ghost predicate OpenAt(keys: seq<Key>, b: int) {
    exists a :: OpenFrom(keys, a, b)
  }

  ghost predicate OpenFrom(keys: seq<Key>, a: int, b: int) {
    Burst(keys, a, b) && Open(Since(keys, a, b))
  }

  ghost predicate IsFragment(keys: seq<Key>, i: nat) {
    exists a :: Burst(keys, a, i) && Fragment(Since(keys, a, i))
  }

  lemma SinceGrows(keys: seq<Key>, a: int, i: nat)
    requires 0 <= a < i < |keys|
    ensures Since(keys, a, i) == Since(keys, a, i - 1) + [keys[i]]
    ensures Open(Since(keys, a, i)) <==>
      if a == i - 1 then IsIntro(keys[i].text) else Open(Since(keys, a, i - 1)) && IsParam(keys[i].text)
    ensures Fragment(Since(keys, a, i)) <==>
      || Open(Since(keys, a, i))
      || ((a == i - 1 || Open(Since(keys, a, i - 1))) && IsTail(keys[i].text))
  {
    var w, v := Since(keys, a, i), Since(keys, a, i - 1);
    assert w == v + [keys[i]] && w[..|w| - 1] == v;
  }

  lemma ParamIsNotIntro(s: string)
    ensures !(IsIntro(s) && IsParam(s)) && !(IsParam(s) && IsTail(s)) && !(IsIntro(s) && IsTail(s))
  {
  }

  // The latest ESC is unique, so a burst to i - 1 extends to i or nothing does.
  lemma BurstExtends(keys: seq<Key>, a: int, i: nat)
    requires 0 < i < |keys| && keys[i].text != "esc"
    ensures Burst(keys, a, i) <==> a < i && Burst(keys, a, i - 1) && keys[i].time - keys[i - 1].time <= WINDOW
  {
  }

  lemma BurstUnique(keys: seq<Key>, a: int, b: int, i: int)
    requires Burst(keys, a, i) && Burst(keys, b, i)
    ensures a == b
  {
  }

  lemma {:induction false} StateMeans(start: Guard, keys: seq<Key>, n: nat)
    requires start.phase == Idle && n <= |keys|
    ensures Means(keys, n, After(start, keys, n))
    decreases n
  {
    if n > 0 {
      StateMeans(start, keys, n - 1);
      StepMeans(keys, n - 1, After(start, keys, n - 1));
    }
  }

  // One key: the state keeps its meaning and the drop has its cause.
  lemma StepMeans(keys: seq<Key>, i: nat, g: Guard)
    requires i < |keys| && Means(keys, i, g)
    ensures Means(keys, i + 1, Swallow(g, keys[i]).0)
    ensures Swallow(g, keys[i]).1 <==> keys[i].text != "esc" && IsFragment(keys, i)
  {
    var k := keys[i];
    ParamIsNotIntro(k.text);
    if k.text == "esc" {
      assert forall a :: Burst(keys, a, i) ==> a == i;
      assert Since(keys, i, i) == [];
    } else if i > 0 {
      forall a | Burst(keys, a, i)
        ensures a < i && Burst(keys, a, i - 1) && k.time - keys[i - 1].time <= WINDOW
      {
        BurstExtends(keys, a, i);
      }
      if g.phase == SawEsc {
        AfterEsc(keys, i, g);
      } else if g.phase == SawIntro {
        AfterIntro(keys, i, g);
      } else {
        AfterIdle(keys, i);
      }
    }
  }

  lemma AfterEsc(keys: seq<Key>, i: nat, g: Guard)
    requires 0 < i < |keys| && keys[i].text != "esc" && Means(keys, i, g) && g.phase == SawEsc
    ensures Means(keys, i + 1, Swallow(g, keys[i]).0)
    ensures Swallow(g, keys[i]).1 <==> IsFragment(keys, i)
  {
    BurstExtends(keys, i - 1, i);
    SinceGrows(keys, i - 1, i);
    assert Burst(keys, i - 1, i - 1);
    assert OpenFrom(keys, i - 1, i) <==> Burst(keys, i - 1, i) && IsIntro(keys[i].text);
    forall a | Burst(keys, a, i) ensures a == i - 1 {
      BurstExtends(keys, a, i);
      BurstUnique(keys, a, i - 1, i - 1);
    }
    ParamIsNotIntro(keys[i].text);
  }

  lemma AfterIntro(keys: seq<Key>, i: nat, g: Guard)
    requires 0 < i < |keys| && keys[i].text != "esc" && Means(keys, i, g) && g.phase == SawIntro
    ensures Means(keys, i + 1, Swallow(g, keys[i]).0)
    ensures Swallow(g, keys[i]).1 <==> IsFragment(keys, i)
  {
    var a :| OpenFrom(keys, a, i - 1);
    assert a < i - 1;
    BurstExtends(keys, a, i);
    SinceGrows(keys, a, i);
    assert OpenFrom(keys, a, i) <==> Burst(keys, a, i) && IsParam(keys[i].text);
    forall b | Burst(keys, b, i) ensures b == a {
      BurstExtends(keys, b, i);
      BurstUnique(keys, a, b, i - 1);
    }
    ParamIsNotIntro(keys[i].text);
  }

  lemma AfterIdle(keys: seq<Key>, i: nat)
    requires 0 < i < |keys| && keys[i].text != "esc" && keys[i - 1].text != "esc"
    requires !OpenAt(keys, i - 1)
    ensures forall a :: Burst(keys, a, i) ==> !Fragment(Since(keys, a, i)) && !Open(Since(keys, a, i))
  {
    forall a | Burst(keys, a, i) ensures !Fragment(Since(keys, a, i)) && !Open(Since(keys, a, i)) {
      BurstExtends(keys, a, i);
      SinceGrows(keys, a, i);
      assert a != i - 1 && !OpenFrom(keys, a, i - 1);
    }
  }

  // Over any timed history: a key is dropped exactly when it is not an ESC and
  // the keys since the latest ESC, each within the window of the one before,
  // form a fragment of an escape sequence.
  lemma DroppedIff(start: Guard, keys: seq<Key>, i: nat)
    requires start.phase == Idle && i < |keys|
    ensures Dropped(start, keys, i) <==> keys[i].text != "esc" && IsFragment(keys, i)
  {
    StateMeans(start, keys, i);
    StepMeans(keys, i, After(start, keys, i));
  }

  // A whole sequence split into keys: after an ESC, an intro, parameters and a
  // tail, each in time.
  ghost predicate SplitSequence(keys: seq<Key>, a: int, b: int) {
    Burst(keys, a, b) && |Since(keys, a, b)| > 1
    && Open(Since(keys, a, b - 1)) && IsTail(keys[b].text)
  }

  // It delivers its ESC and nothing else, and leaves the guard idle, so the
  // next key, whenever it comes, is a command again.
  lemma SplitSequenceSwallowed(start: Guard, keys: seq<Key>, a: nat, b: nat)
    requires start.phase == Idle && SplitSequence(keys, a, b)
    ensures !Dropped(start, keys, a)
    ensures forall i :: a < i <= b ==> Dropped(start, keys, i)
    ensures After(start, keys, b + 1).phase == Idle
  {
    DroppedIff(start, keys, a);
    var w := Since(keys, a, b - 1);
    forall i | a < i <= b ensures Dropped(start, keys, i) {
      assert Burst(keys, a, i);
      if i < b {
        assert Since(keys, a, i) == w[..i - a];
        assert Open(Since(keys, a, i));
      } else {
        SinceGrows(keys, a, b);
      }
      DroppedIff(start, keys, i);
    }
    StateMeans(start, keys, b + 1);
    ParamIsNotIntro(keys[b].text);
    forall c ensures !OpenFrom(keys, c, b) {
      if Burst(keys, c, b) {
        BurstUnique(keys, a, c, b);
        SinceGrows(keys, a, b);
      }
    }
  }

  // A key that comes later than the window after the one before it is always
  // delivered, whatever went before: typing is never eaten.
  lemma SlowKeyDelivered(start: Guard, keys: seq<Key>, i: nat)
    requires start.phase == Idle && 0 < i < |keys| && keys[i].time - keys[i - 1].time > WINDOW
    ensures !Dropped(start, keys, i)
  {
    DroppedIff(start, keys, i);
  }
}

// Keeping a session attached: when a dropped link is dialled again, how long
// each wait is, and when the loop gives up.
module Reconnecting {
  import opened ByteStrings
  import opened Session

  const MIN_HEALTHY: nat := 2000 // milliseconds
  const MAX_IMMEDIATE: nat := 4
  const FIRST_BACKOFF: nat := 250
  const ETX: byte := 3

  // ------------------------------------------------------------ reconnectSession

  datatype Dial = Connected(conn: nat) | Gone | Failed

  // What ends one wait: the caller, the terminal, a key, or the backoff, after
  // which a dial is made.
  datatype Wait = Cancelled | TerminalClosed | Typed(bytes: Bytes) | Elapsed(dial: Dial)

  datatype Retry = Reconnected(conn: nat) | Stopped | SessionGone | Aborted | StillTrying

  // This wait settles the matter so: the caller or the terminal is gone, the
  // operator typed Ctrl-C, or a dial found the session or found it gone. A
  // failed dial and any other key do not.
  ghost predicate Final(w: Wait, r: Retry) {
    || (r == Stopped && (w == Cancelled || w == TerminalClosed))
    || (r == Aborted && w.Typed? && ETX in w.bytes)
    || (r == SessionGone && w == Elapsed(Gone))
    || (r.Reconnected? && w == Elapsed(Connected(r.conn)))
  }

  ghost predicate Open(w: Wait) {
    forall r :: !Final(w, r)
  }

  function Dials(waits: seq<Wait>): nat {
    if waits == [] then 0 else Dials(waits[..|waits| - 1]) + if waits[|waits| - 1].Elapsed? then 1 else 0
  }

  function Pow2(e: nat): nat {
    if e == 0 then 1 else 2 * Pow2(e - 1)
  }

  // The wait before dial number k, counting from 0.
  function Backoff(k: nat): nat {
    FIRST_BACKOFF * Pow2(if k < 5 then k else 5)
  }

  // Doubling while below five seconds means six steps and no more.
  lemma BackoffStep(k: nat)
    ensures Backoff(k + 1) == (if Backoff(k) < 5000 then Backoff(k) * 2 else Backoff(k))
    ensures Backoff(0) == 250 && FIRST_BACKOFF <= Backoff(k) <= 8000
  {
    assert Pow2(5) == 32 by {
      assert Pow2(1) == 2 && Pow2(2) == 4 && Pow2(3) == 8 && Pow2(4) == 16;
    }
    if k < 5 {
      assert k == 0 || k == 1 || k == 2 || k == 3 || k == 4;
      assert Pow2(0) == 1 && Pow2(1) == 2 && Pow2(2) == 4 && Pow2(3) == 8 && Pow2(4) == 16;
    }
  }

  // The n-th wait is the first that settles the matter.
  ghost predicate Settles(waits: seq<Wait>, n: int, r: Retry) {
    0 <= n < |waits| && Final(waits[n], r) && forall i :: 0 <= i < n ==> Open(waits[i])
  }

  // The first wait that settles the matter decides; each dial before it came
  // after the next longer wait, whatever was typed in between. A key does not
  // dial: it starts the current wait again.
  method ReconnectSession(waits: seq<Wait>) returns (r: Retry, delays: seq<nat>)
    ensures r == StillTrying <==> forall i :: 0 <= i < |waits| ==> Open(waits[i])
    ensures r == StillTrying ==> |delays| == Dials(waits)
    ensures r != StillTrying ==> exists n :: Settles(waits, n, r) && |delays| == Dials(waits[..n + 1])
    ensures forall k :: 0 <= k < |delays| ==> delays[k] == Backoff(k) <= 8000
  {
    var backoff := FIRST_BACKOFF;
    delays := [];
    for i := 0 to |waits|
      invariant forall j :: 0 <= j < i ==> Open(waits[j])
      invariant |delays| == Dials(waits[..i]) && backoff == Backoff(|delays|)
      invariant forall k :: 0 <= k < |delays| ==> delays[k] == Backoff(k) <= 8000
    {
      assert waits[..i + 1][..i] == waits[..i];
      BackoffStep(|delays|);
      assert forall q :: Final(waits[i], q) ==> Settles(waits, i, q);
      match waits[i] {
        case Cancelled =>
          assert Final(waits[i], Stopped);
          return Stopped, delays;
        case TerminalClosed =>
          assert Final(waits[i], Stopped);
          return Stopped, delays;
        case Typed(b) =>
          if ETX in b {
            assert Final(waits[i], Aborted);
            return Aborted, delays;
          }
        case Elapsed(dial) =>
          delays := delays + [backoff];
          match dial {
            case Connected(c) =>
              assert Final(waits[i], Reconnected(c));
              return Reconnected(c), delays;
            case Gone =>
              assert Final(waits[i], SessionGone);
              return SessionGone, delays;
            case Failed =>
              if backoff < 5000 {
                backoff := backoff * 2;
              }
          }
      }
    }
    assert waits[..|waits|] == waits;
    r := StillTrying;
  }

  // -------------------------------------------------------------- runSessionLoop

  // One connection: why it ended, how long it was up, and what re-dialling
  // came to if it was a dropped link.
  datatype Conn = Conn(reason: Reason, uptime: nat, retry: Retry)

  // StillAttached and StillDialling: the session has not ended yet.
  datatype LoopEnd = Summoned | Quiet | GaveUp | StillAttached | StillDialling

  predicate Short(c: Conn) {
    c.uptime < MIN_HEALTHY
  }

  function NextImmediateFailures(prev: nat, uptime: nat): nat {
    if uptime >= MIN_HEALTHY then 0 else prev + 1
  }

  // r is the length of the run of short connections that ends with the n-th.
  ghost predicate ShortRun(conns: seq<Conn>, n: nat, r: nat) {
    && r <= n <= |conns|
    && (forall i :: n - r <= i < n ==> Short(conns[i]))
    && (r < n ==> !Short(conns[n - r - 1]))
  }

  ghost predicate FourShort(conns: seq<Conn>, n: nat)
    requires n <= |conns|
  {
    n >= 4 && forall i :: n - 4 <= i < n ==> conns[i].uptime < 2000
  }

  lemma FourShortIff(conns: seq<Conn>, n: nat, r: nat)
    requires ShortRun(conns, n, r)
    ensures FourShort(conns, n) <==> r >= MAX_IMMEDIATE
  {
  }

  // The n-th connection dropped, was not the fourth short one in a row, and
  // was replaced.
  ghost predicate WentOn(conns: seq<Conn>, n: nat)
    requires 1 <= n <= |conns|
  {
    conns[n - 1].reason == Reconnect && !FourShort(conns, n) && conns[n - 1].retry.Reconnected?
  }

  // Over the connections of a session, the n-th is the one that ends it: the
  // loop gives up exactly when the last four all dropped within two seconds.
  method RunSessionLoop(conns: seq<Conn>) returns (end: LoopEnd, n: nat)
    ensures n <= |conns|
    ensures end == StillAttached ==> n == |conns| && forall i :: 1 <= i <= n ==> WentOn(conns, i)
    ensures end != StillAttached ==> n >= 1 && !WentOn(conns, n) && forall i :: 1 <= i < n ==> WentOn(conns, i)
    ensures end == Summoned <==> n >= 1 && conns[n - 1].reason == ExitSummon
    ensures end == StillDialling <==>
      n >= 1 && conns[n - 1].reason == Reconnect && !FourShort(conns, n) && conns[n - 1].retry == StillTrying
    ensures end == GaveUp <==> n >= 1 && conns[n - 1].reason == Reconnect && FourShort(conns, n)
  {
    var immediate: nat := 0;
    n := 0;
    while n < |conns|
      invariant n <= |conns| && ShortRun(conns, n, immediate)
      invariant forall i :: 1 <= i <= n ==> WentOn(conns, i)
    {
      var c := conns[n];
      n := n + 1;
      if c.reason == ExitSummon {
        return Summoned, n;
      } else if c.reason != Reconnect {
        return Quiet, n;
      }
      immediate := NextImmediateFailures(immediate, c.uptime);
      FourShortIff(conns, n, immediate);
      if immediate >= MAX_IMMEDIATE {
        return GaveUp, n;
      }
      if !c.retry.Reconnected? {
        return if c.retry == StillTrying then StillDialling else Quiet, n;
      }
    }
    assert n >= 1 ==> WentOn(conns, n);
    end := StillAttached;
  }
}

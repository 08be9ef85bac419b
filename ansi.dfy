/** The server's `strip_ansi_codes` (server/app.py:23-25): it deletes every match
    of the pattern `\x1B(?:[@-Z\\-_]|\[[0-?]*[ -/]*[@-~])`, scanning left to right
    as `re.sub` does. The pattern matches either a two-character escape (ESC and
    one byte in 0x40-0x5A or 0x5C-0x5F) or a control sequence: ESC, `[`, any
    number of parameter bytes (0x30-0x3F), any number of intermediate bytes
    (0x20-0x2F) and one final byte (0x40-0x7E). */
module Ansi {

  const ESC: char := '\U{1B}'

  /** `[@-Z\\-_]`: the second byte of a two-character escape. */
  predicate IsEscapeFinal(c: char) { '@' <= c <= 'Z' || '\\' <= c <= '_' }

  /** `[0-?]` */
  predicate IsParameter(c: char) { '0' <= c <= '?' }

  /** `[ -/]` */
  predicate IsIntermediate(c: char) { ' ' <= c <= '/' }

  /** `[@-~]` */
  predicate IsFinal(c: char) { '@' <= c <= '~' }

  /** `e` is a control sequence with `p` parameter bytes and `m` intermediate
      bytes. */
  ghost predicate IsControlSequence(e: string, p: nat, m: nat)
  {
    && |e| == 3 + p + m && e[0] == ESC && e[1] == '['
    && (forall k :: 2 <= k < 2 + p ==> IsParameter(e[k]))
    && (forall k :: 2 + p <= k < 2 + p + m ==> IsIntermediate(e[k]))
    && IsFinal(e[|e| - 1])
  }

  /** The strings the pattern denotes. */
  ghost predicate IsEscapeSequence(e: string)
  {
    || (|e| == 2 && e[0] == ESC && IsEscapeFinal(e[1]))
    || exists p: nat, m: nat :: IsControlSequence(e, p, m)
  }

  /** The length of the longest prefix of `s` made of characters in `lo..hi`. */
  function Span(s: string, lo: char, hi: char): (n: nat)
    ensures n <= |s|
    ensures forall k :: 0 <= k < n ==> lo <= s[k] <= hi
    ensures n < |s| ==> !(lo <= s[n] <= hi)
  {
    if s != [] && lo <= s[0] <= hi then 1 + Span(s[1..], lo, hi) else 0
  }

  /** The length of the match of the pattern at the start of `s`, or 0 when the
      pattern does not match there. The three character classes of a control
      sequence are disjoint, so the greedy match is the only one. */
  function MatchLength(s: string): (n: nat)
    ensures n <= |s|
    ensures n != 0 ==> 2 <= n && s[0] == ESC
  {
    if |s| < 2 || s[0] != ESC then 0
    else if IsEscapeFinal(s[1]) then 2
    else if s[1] != '[' then 0
    else
      var p := Span(s[2..], '0', '?');
      var m := Span(s[2 + p..], ' ', '/');
      if 2 + p + m < |s| && IsFinal(s[2 + p + m]) then 3 + p + m else 0
  }

  /** `strip_ansi_codes(s)`. */
  function StripAnsi(s: string): (r: string)
    ensures |r| <= |s|
    decreases |s|
  {
    if s == [] then []
    else if MatchLength(s) != 0 then StripAnsi(s[MatchLength(s)..])
    else [s[0]] + StripAnsi(s[1..])
  }

  /** What the scanner removes at the front of `s` is a string of the pattern. */
  lemma MatchIsEscapeSequence(s: string)
    requires MatchLength(s) != 0
    ensures IsEscapeSequence(s[..MatchLength(s)])
  {
    if IsEscapeFinal(s[1]) {
      var e := s[..MatchLength(s)];
      assert |e| == 2 && e[0] == ESC && IsEscapeFinal(e[1]);
    } else {
      var p, m := ControlMatch(s);
      RunsOfMatch(s, p, m);
      ControlPrefix(s, p, m);
      ControlIsEscape(s[..3 + p + m], p, m);
    }
  }

  /** A match that is not a two-character escape is a control sequence of the
      two spans the scanner measured. */
  lemma ControlMatch(s: string) returns (p: nat, m: nat)
    requires MatchLength(s) != 0 && !IsEscapeFinal(s[1])
    ensures s[0] == ESC && s[1] == '['
    ensures 2 + p <= |s| && p == Span(s[2..], '0', '?') && m == Span(s[2 + p..], ' ', '/')
    ensures MatchLength(s) == 3 + p + m && 3 + p + m <= |s| && IsFinal(s[2 + p + m])
  {
    p := Span(s[2..], '0', '?');
    m := Span(s[2 + p..], ' ', '/');
  }

  lemma ControlIsEscape(e: string, p: nat, m: nat)
    requires IsControlSequence(e, p, m)
    ensures IsEscapeSequence(e)
  {
  }

  /** The two spans the scanner measures consist of parameter and
      intermediate bytes. */
  lemma RunsOfMatch(s: string, p: nat, m: nat)
    requires 2 <= |s| && p == Span(s[2..], '0', '?') && 2 + p <= |s| && m == Span(s[2 + p..], ' ', '/')
    ensures forall k :: 2 <= k < 2 + p ==> IsParameter(s[k])
    ensures forall k :: 2 + p <= k < 2 + p + m ==> IsIntermediate(s[k])
  {
    forall k | 2 <= k < 2 + p ensures IsParameter(s[k]) {
      assert s[k] == s[2..][k - 2];
    }
    forall k | 2 + p <= k < 2 + p + m ensures IsIntermediate(s[k]) {
      assert s[k] == s[2 + p..][k - 2 - p];
    }
  }

  /** A prefix shaped like a control sequence is one. */
  lemma ControlPrefix(s: string, p: nat, m: nat)
    requires 3 + p + m <= |s| && s[0] == ESC && s[1] == '['
    requires forall k :: 2 <= k < 2 + p ==> IsParameter(s[k])
    requires forall k :: 2 + p <= k < 2 + p + m ==> IsIntermediate(s[k])
    requires IsFinal(s[2 + p + m])
    ensures IsControlSequence(s[..3 + p + m], p, m)
  {
    var e := s[..3 + p + m];
    forall k | 2 <= k < 2 + p ensures IsParameter(e[k]) {
      assert e[k] == s[k];
    }
    forall k | 2 + p <= k < 2 + p + m ensures IsIntermediate(e[k]) {
      assert e[k] == s[k];
    }
    assert e[|e| - 1] == s[2 + p + m];
  }

  /** A run of characters in `lo..hi` followed by one outside that range spans
      exactly the run. */
  lemma {:induction false} SpanOfRun(run: string, rest: string, lo: char, hi: char)
    requires forall k :: 0 <= k < |run| ==> lo <= run[k] <= hi
    requires rest == [] || !(lo <= rest[0] <= hi)
    ensures Span(run + rest, lo, hi) == |run|
    decreases |run|
  {
    if run != [] {
      assert (run + rest)[1..] == run[1..] + rest;
      SpanOfRun(run[1..], rest, lo, hi);
    }
  }

  /** The parameter bytes of a control sequence, followed by what comes after
      them, span exactly `p` characters. */
  lemma ParameterRun(e: string, p: nat, m: nat, t: string)
    requires IsControlSequence(e, p, m)
    ensures Span((e + t)[2..], '0', '?') == p
  {
    var s := e + t;
    var run, rest := e[2..2 + p], s[2 + p..];
    assert s[2..] == run + rest;
    forall k | 0 <= k < |run| ensures '0' <= run[k] <= '?' {
      assert run[k] == e[2 + k];
      assert IsParameter(e[2 + k]);
    }
    assert rest[0] == e[2 + p];
    if m == 0 {
      assert IsFinal(e[2 + p]);
    } else {
      assert IsIntermediate(e[2 + p]);
    }
    SpanOfRun(run, rest, '0', '?');
  }

  /** The intermediate bytes of a control sequence, followed by what comes
      after them, span exactly `m` characters. */
  lemma IntermediateRun(e: string, p: nat, m: nat, t: string)
    requires IsControlSequence(e, p, m)
    ensures Span((e + t)[2 + p..], ' ', '/') == m
  {
    var s := e + t;
    var run, rest := e[2 + p..2 + p + m], s[2 + p + m..];
    assert s[2 + p..] == run + rest;
    forall k | 0 <= k < |run| ensures ' ' <= run[k] <= '/' {
      assert run[k] == e[2 + p + k];
      assert IsIntermediate(e[2 + p + k]);
    }
    assert rest[0] == e[2 + p + m];
    assert IsFinal(e[2 + p + m]);
    SpanOfRun(run, rest, ' ', '/');
  }

  /** A control sequence is matched in full at the front of any text. */
  lemma MatchOfControlSequence(e: string, p: nat, m: nat, t: string)
    requires IsControlSequence(e, p, m)
    ensures MatchLength(e + t) == |e|
  {
    var s := e + t;
    assert s[0] == ESC && s[1] == '[';
    ParameterRun(e, p, m, t);
    IntermediateRun(e, p, m, t);
    assert s[2 + p + m] == e[|e| - 1];
  }

  /** Every string of the pattern is matched in full at the front of any text. */
  lemma MatchOfEscapeSequence(e: string, t: string)
    requires IsEscapeSequence(e)
    ensures MatchLength(e + t) == |e|
  {
    if |e| == 2 && e[0] == ESC && IsEscapeFinal(e[1]) {
      assert (e + t)[1] == e[1];
    } else {
      var p: nat, m: nat :| IsControlSequence(e, p, m);
      MatchOfControlSequence(e, p, m, t);
    }
  }

  /** Text without ESC comes out unchanged. */
  lemma {:induction false} StripWithoutEscape(s: string)
    requires forall k :: 0 <= k < |s| ==> s[k] != ESC
    ensures StripAnsi(s) == s
    decreases |s|
  {
    if s != [] {
      StripWithoutEscape(s[1..]);
    }
  }

  /** A first character other than ESC is copied. */
  lemma StripPlainHead(u: string, t: string)
    requires u != [] && u[0] != ESC
    ensures StripAnsi(u + t) == [u[0]] + StripAnsi(u[1..] + t)
  {
    var s := u + t;
    assert s[0] == u[0];
    assert MatchLength(s) == 0;
    assert s[1..] == u[1..] + t;
  }

  /** A prefix without ESC is kept in front of whatever the rest becomes. */
  lemma {:induction false} StripKeepsPlainPrefix(u: string, t: string)
    requires forall k :: 0 <= k < |u| ==> u[k] != ESC
    ensures StripAnsi(u + t) == u + StripAnsi(t)
    decreases |u|
  {
    if u != [] {
      var rest, r := u[1..], StripAnsi(t);
      StripPlainHead(u, t);
      StripKeepsPlainPrefix(rest, t);
      assert [u[0]] + (rest + r) == ([u[0]] + rest) + r;
      assert u == [u[0]] + rest;
    } else {
      assert u + t == t;
    }
  }

  /** A string of the pattern at the front is deleted. */
  lemma StripDropsEscapeSequence(e: string, t: string)
    requires IsEscapeSequence(e)
    ensures StripAnsi(e + t) == StripAnsi(t)
  {
    MatchOfEscapeSequence(e, t);
    assert (e + t)[|e|..] == t;
  }

  /** Deleting matches can bring an ESC next to a byte it did not precede
      before, so stripping twice may remove more than stripping once. */
  lemma StripNotIdempotent()
    ensures exists s :: StripAnsi(StripAnsi(s)) != StripAnsi(s)
  {
    var s := [ESC, ESC, '[', 'm', 'A'];
    assert MatchLength(s) == 0;
    assert MatchLength(s[1..]) == 3;
    assert s[1..][3..] == ['A'];
    assert StripAnsi(['A']) == ['A'];
    assert StripAnsi(s) == [ESC, 'A'];
    assert StripAnsi([ESC, 'A']) == [];
  }
}

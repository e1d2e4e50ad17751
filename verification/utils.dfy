/** Rendering of durations for display (src/lib/utils.ts): the logged total
    of a ticket ("1h 1m") and the live clock of a running timer
    ("1h 2m 5s"). A reader for the rendered text is defined alongside, so
    that what a rendering says can be stated as the number it reads back
    as. */
module Utils {
  import opened Wrappers
  import opened Strings

  /** JavaScript's `%` on integers: truncated toward zero, so the
      remainder takes the sign of the dividend. */
  function JsRem(a: int, b: int): (r: int)
    requires b > 0
    ensures a >= 0 ==> r == a % b
    ensures a < 0 ==> -b < r <= 0
  {
    if a >= 0 then a % b else -((-a) % b)
  }

  /** `formatDuration(seconds)`: hours and whole minutes, zero components
      left out; "0m" for zero and "<1m" for a positive amount under one
      minute. A negative amount renders as the empty string. */
  function FormatDuration(seconds: int): (r: string)
    ensures seconds == 0 ==> r == "0m"
    ensures 0 < seconds < 60 ==> r == "<1m"
    ensures seconds < 0 ==> r == ""
  {
    if seconds == 0 then "0m"
    else
      var h := seconds / 3600;
      var m := JsRem(seconds, 3600) / 60;
      var parts := (if h > 0 then [IntToString(h) + "h"] else [])
                 + (if m > 0 then [IntToString(m) + "m"] else []);
      if |parts| == 0 && seconds > 0 then "<1m" else Join(parts, " ")
  }

  /** `formatDurationFromStart(startTime)` with the clock reading `now` as a
      parameter; both are in milliseconds. Minutes and seconds always
      appear, hours only when positive. */
  function FormatDurationFromStart(startTime: int, now: int): string {
    var diff := (now - startTime) / 1000;
    var h := diff / 3600;
    var m := JsRem(diff, 3600) / 60;
    var s := JsRem(diff, 60);
    var parts := (if h > 0 then [IntToString(h) + "h"] else [])
               + [IntToString(m) + "m", IntToString(s) + "s"];
    Join(parts, " ")
  }

  // ----- Reading rendered durations back -----

  /** One `<digits><unit>` token, unit `h`, `m` or `s`, as a number of
      seconds. */
  function ReadToken(t: string): Option<nat> {
    if |t| >= 2 && AllDigits(t[..|t| - 1]) then
      var n := ParseDigits(t[..|t| - 1]);
      match t[|t| - 1]
      case 'h' => Some(3600 * n)
      case 'm' => Some(60 * n)
      case 's' => Some(n)
      case _ => None
    else None
  }

  function ReadTokens(ts: seq<string>): Option<nat> {
    if |ts| == 0 then Some(0)
    else
      var head := ReadToken(ts[0]);
      var tail := ReadTokens(ts[1..]);
      if head.Some? && tail.Some? then Some(head.value + tail.value) else None
  }

  /** Reads a rendered duration: single-space-separated `<digits><unit>`
      tokens, summed. Anything else ("<1m", a negative count) reads as
      `None`. */
  function ReadDuration(text: string): Option<nat> {
    ReadTokens(Split(text, ' '))
  }

  /** The token rendering `n` units of `u`. */
  function Token(n: nat, u: char): string {
    NatToString(n) + [u]
  }

  lemma ReadTokenOf(n: nat, u: char)
    requires u == 'h' || u == 'm' || u == 's'
    ensures u == 'h' ==> ReadToken(Token(n, u)) == Some(3600 * n)
    ensures u == 'm' ==> ReadToken(Token(n, u)) == Some(60 * n)
    ensures u == 's' ==> ReadToken(Token(n, u)) == Some(n)
    ensures ' ' !in Token(n, u)
  {
    var t := Token(n, u);
    assert t[..|t| - 1] == NatToString(n);
    assert forall k :: 0 <= k < |t| ==> t[k] != ' ' by {
      forall k | 0 <= k < |t| ensures t[k] != ' ' {
        if k < |t| - 1 { assert t[k] == NatToString(n)[k]; }
      }
    }
  }

  lemma SplitOne(a: string)
    requires ' ' !in a
    ensures Split(a, ' ') == [a]
  {
  }

  /** Whole hours plus whole minutes of a non-negative amount is the
      amount with its leftover seconds dropped. */
  lemma HoursMinutes(seconds: nat)
    ensures (seconds / 3600) * 3600 + (seconds % 3600 / 60) * 60 == seconds - seconds % 60
    ensures seconds % 3600 / 60 < 60
  {
    var h := seconds / 3600;
    var r := seconds % 3600;
    var m := r / 60;
    assert seconds == 3600 * h + r;
    assert r == 60 * m + r % 60;
    assert seconds == 60 * (60 * h + m) + r % 60;
    assert seconds % 60 == r % 60;
  }

  lemma JoinTwo(a: string, b: string)
    ensures Join([a, b], " ") == a + " " + b
  {
    assert [a, b][1..] == [b];
  }

  lemma JoinThree(a: string, b: string, c: string)
    ensures Join([a, b, c], " ") == a + " " + b + " " + c
  {
    assert [a, b, c][1..] == [b, c];
    JoinTwo(b, c);
  }

  /** A token in front of a space-separated rest reads as its own value
      plus the rest's. */
  lemma ReadCons(a: string, rest: string, x: nat, y: nat)
    requires ' ' !in a && ReadToken(a) == Some(x) && ReadDuration(rest) == Some(y)
    ensures ReadDuration(a + " " + rest) == Some(x + y)
  {
    SplitAtFirst(a, ' ', rest);
    var ts := [a] + Split(rest, ' ');
    assert ts[1..] == Split(rest, ' ');
  }

  lemma SpaceAssoc(a: string, b: string, c: string)
    ensures a + " " + b + " " + c == a + " " + (b + " " + c)
  {
  }

  /** A single token reads as its own value. */
  lemma ReadSingle(t: string)
    requires ' ' !in t && ReadToken(t).Some?
    ensures ReadDuration(t) == ReadToken(t)
  {
    SplitOne(t);
    assert [t][1..] == [];
    assert ReadTokens([]) == Some(0);
  }

  // ----- Properties of the renderings -----

  /** For at least a minute, the logged-time rendering is the hour token
      (when there are whole hours) followed by the minute token (when
      there are leftover whole minutes), separated by one space, hours
      first. */
  lemma FormatDurationShape(seconds: int)
    requires seconds >= 60
    ensures var h := seconds / 3600;
            var m := seconds % 3600 / 60;
            && (h > 0 && m > 0 ==> FormatDuration(seconds) == Token(h, 'h') + " " + Token(m, 'm'))
            && (h > 0 && m == 0 ==> FormatDuration(seconds) == Token(h, 'h'))
            && (h == 0 ==> m > 0 && FormatDuration(seconds) == Token(m, 'm'))
  {
    var h := seconds / 3600;
    var m := seconds % 3600 / 60;
    assert JsRem(seconds, 3600) == seconds % 3600;
    var parts := (if h > 0 then [IntToString(h) + "h"] else [])
               + (if m > 0 then [IntToString(m) + "m"] else []);
    assert FormatDuration(seconds) == if |parts| == 0 then "<1m" else Join(parts, " ");
    if h > 0 && m > 0 {
      assert parts == [Token(h, 'h'), Token(m, 'm')];
      JoinTwo(Token(h, 'h'), Token(m, 'm'));
    } else if h > 0 {
      assert parts == [Token(h, 'h')];
    } else {
      assert seconds < 3600;
      assert m > 0;
      assert parts == [Token(m, 'm')];
    }
  }

  /** A rendering of at least one minute reads back as exactly the whole
      minutes of the input: the hour and minute parts add up to
      `seconds - seconds % 60`, and the leftover seconds are never shown. */
  lemma FormatDurationReadsBack(seconds: int)
    requires seconds >= 60
    ensures ReadDuration(FormatDuration(seconds)) == Some(seconds - seconds % 60)
  {
    FormatDurationShape(seconds);
    HoursMinutes(seconds);
    ReadHoursMinutes(FormatDuration(seconds), seconds / 3600, seconds % 3600 / 60);
  }

  /** Reading an hours-and-minutes rendering, whatever produced it. */
  lemma ReadHoursMinutes(text: string, h: nat, m: nat)
    requires h > 0 || m > 0
    requires h > 0 && m > 0 ==> text == Token(h, 'h') + " " + Token(m, 'm')
    requires h > 0 && m == 0 ==> text == Token(h, 'h')
    requires h == 0 ==> text == Token(m, 'm')
    ensures ReadDuration(text) == Some(3600 * h + 60 * m)
  {
    ReadTokenOf(h, 'h');
    ReadTokenOf(m, 'm');
    if h > 0 && m > 0 {
      ReadSingle(Token(m, 'm'));
      ReadCons(Token(h, 'h'), Token(m, 'm'), 3600 * h, 60 * m);
    } else if h > 0 {
      ReadSingle(Token(h, 'h'));
    } else {
      ReadSingle(Token(m, 'm'));
    }
  }

  /** Two amounts with the same whole minutes render identically. */
  lemma FormatDurationIgnoresSeconds(seconds: int)
    requires seconds >= 60
    ensures FormatDuration(seconds) == FormatDuration(seconds - seconds % 60)
  {
    var t := seconds - seconds % 60;
    HoursMinutes(seconds);
    HoursMinutes(t);
    assert t / 3600 == seconds / 3600;
    assert t % 3600 / 60 == seconds % 3600 / 60;
    FormatDurationShape(seconds);
    FormatDurationShape(t);
  }

  /** The live rendering, for a clock not behind the start: the elapsed
      whole seconds split into hours, minutes below 60 and seconds below
      60; the minute and second tokens always appear, preceded by the hour
      token exactly when at least one whole hour has elapsed. */
  lemma LiveShape(startTime: int, now: int) returns (h: nat, m: nat, s: nat)
    requires now >= startTime
    ensures m < 60 && s < 60
    ensures 3600 * h + 60 * m + s == (now - startTime) / 1000
    ensures h > 0 ==> FormatDurationFromStart(startTime, now)
                      == Token(h, 'h') + " " + Token(m, 'm') + " " + Token(s, 's')
    ensures h == 0 ==> FormatDurationFromStart(startTime, now)
                       == Token(m, 'm') + " " + Token(s, 's')
  {
    var diff := (now - startTime) / 1000;
    h, m, s := diff / 3600, diff % 3600 / 60, diff % 60;
    assert JsRem(diff, 3600) == diff % 3600;
    assert JsRem(diff, 60) == diff % 60;
    HoursMinutes(diff);
    ClockParts(diff, h, m, s);
    var parts := (if h > 0 then [IntToString(h) + "h"] else [])
               + [IntToString(m) + "m", IntToString(s) + "s"];
    assert FormatDurationFromStart(startTime, now) == Join(parts, " ");
    if h > 0 {
      assert parts == [Token(h, 'h'), Token(m, 'm'), Token(s, 's')];
      JoinThree(Token(h, 'h'), Token(m, 'm'), Token(s, 's'));
    } else {
      assert parts == [Token(m, 'm'), Token(s, 's')];
      JoinTwo(Token(m, 'm'), Token(s, 's'));
    }
  }

  /** The live rendering reads back as the whole seconds elapsed,
      `floor((now - startTime) / 1000)`. */
  lemma LiveReadsBack(startTime: int, now: int)
    requires now >= startTime
    ensures ReadDuration(FormatDurationFromStart(startTime, now)) == Some((now - startTime) / 1000)
  {
    var h, m, s := LiveShape(startTime, now);
    ReadLive(FormatDurationFromStart(startTime, now), h, m, s, (now - startTime) / 1000);
  }

  /** A text whose first character is a minus sign does not read back: its
      first token has no digits-and-unit shape. */
  lemma LeadingMinusUnreadable(text: string)
    requires |text| > 0 && text[0] == '-'
    ensures ReadDuration(text) == None
  {
    var pieces := Split(text, ' ');
    if |pieces| > 1 {
      assert text == pieces[0] + " " + Join(pieces[1..], " ");
      assert |pieces[0]| > 0 && pieces[0][0] == '-';
    } else {
      assert text == pieces[0];
    }
    var t := pieces[0];
    if |t| >= 2 {
      assert !IsDigit(t[..|t| - 1][0]);
    }
    assert ReadToken(t) == None;
  }

  /** Whole hours behind, in seconds, are whole minutes behind as well. */
  lemma NegativeRemainders(diff: int)
    requires diff < 0
    ensures JsRem(diff, 3600) == 0 <==> diff % 3600 == 0
    ensures diff % 3600 == 0 ==> JsRem(diff, 60) == 0
  {
    var k := -diff;
    assert JsRem(diff, 3600) == -(k % 3600);
    assert JsRem(diff, 60) == -(k % 60);
    WholeHoursNegate(diff);
    WholeHoursAreWholeMinutes(k);
  }

  lemma WholeHoursAreWholeMinutes(k: int)
    ensures k % 3600 == 0 ==> k % 60 == 0
  {
    if k % 3600 == 0 {
      var q := k / 3600;
      assert k == 60 * (60 * q);
    }
  }

  lemma WholeHoursNegate(diff: int)
    ensures diff % 3600 == 0 <==> (-diff) % 3600 == 0
  {
    if diff % 3600 == 0 {
      var q := diff / 3600;
      assert -diff == 3600 * -q;
    }
    if (-diff) % 3600 == 0 {
      var q := (-diff) / 3600;
      assert diff == 3600 * -q;
    }
  }

  /** With the clock behind the start, the live rendering reads back only
      when a whole number of hours behind, as "0m 0s"; otherwise its minute
      token is negative and it does not read back at all. */
  lemma LiveBehindReadsBack(startTime: int, now: int)
    requires now < startTime
    ensures ReadDuration(FormatDurationFromStart(startTime, now))
         == (if (now - startTime) / 1000 % 3600 == 0 then Some(0) else None)
  {
    var diff := (now - startTime) / 1000;
    var text := FormatDurationFromStart(startTime, now);
    var r := JsRem(diff, 3600);
    NegativeRemainders(diff);
    var parts := [IntToString(r / 60) + "m", IntToString(JsRem(diff, 60)) + "s"];
    assert diff < 0 && diff / 3600 < 0;
    assert [] + parts == parts;
    assert text == Join(parts, " ");
    JoinTwo(parts[0], parts[1]);
    if diff % 3600 == 0 {
      assert parts == [Token(0, 'm'), Token(0, 's')];
      ReadLive(text, 0, 0, 0, 0);
    } else {
      assert IntToString(r / 60)[0] == '-';
      LeadingMinusUnreadable(text);
    }
  }

  /** Reading back a live-clock rendering, with or without its hour token. */
  lemma ReadLive(text: string, h: nat, m: nat, s: nat, total: nat)
    requires total == 3600 * h + 60 * m + s
    requires h > 0 ==> text == Token(h, 'h') + " " + Token(m, 'm') + " " + Token(s, 's')
    requires h == 0 ==> text == Token(m, 'm') + " " + Token(s, 's')
    ensures ReadDuration(text) == Some(total)
  {
    if h > 0 {
      ReadClock(h, m, s);
    } else {
      ReadMinutesSeconds(m, s);
    }
  }

  /** Hours, minutes and seconds of a non-negative amount add up to it. */
  lemma ClockParts(diff: nat, h: nat, m: nat, s: nat)
    requires h == diff / 3600 && m == diff % 3600 / 60 && s == diff % 60
    ensures 3600 * h + 60 * m + s == diff
  {
    var r := diff % 3600;
    assert diff == 3600 * h + r;
    assert r == 60 * m + r % 60;
    assert diff == 60 * (60 * h + m) + r % 60;
    assert s == r % 60;
  }

  /** Reading a live-clock rendering with hours. */
  lemma ReadClock(h: nat, m: nat, s: nat)
    ensures ReadDuration(Token(h, 'h') + " " + Token(m, 'm') + " " + Token(s, 's'))
         == Some(3600 * h + (60 * m + s))
  {
    var ms := Token(m, 'm') + " " + Token(s, 's');
    ReadMinutesSeconds(m, s);
    ReadTokenOf(h, 'h');
    ReadCons(Token(h, 'h'), ms, 3600 * h, 60 * m + s);
    SpaceAssoc(Token(h, 'h'), Token(m, 'm'), Token(s, 's'));
  }

  lemma ReadMinutesSeconds(m: nat, s: nat)
    ensures ' ' !in Token(m, 'm') && ' ' !in Token(s, 's')
    ensures ReadDuration(Token(m, 'm') + " " + Token(s, 's')) == Some(60 * m + s)
  {
    ReadTokenOf(m, 'm');
    ReadTokenOf(s, 's');
    ReadSingle(Token(s, 's'));
    ReadCons(Token(m, 'm'), Token(s, 's'), 60 * m, s);
  }

  /** Worked values of the logged-time rendering. */
  lemma FormatDurationExamples()
    ensures FormatDuration(0) == "0m"
    ensures FormatDuration(30) == "<1m"
    ensures FormatDuration(120) == "2m"
    ensures FormatDuration(3600) == "1h"
    ensures FormatDuration(3661) == "1h 1m"
    ensures FormatDuration(-5) == ""
  {
    assert NatToString(1) == "1";
    assert NatToString(2) == "2";
    FormatDurationShape(120);
    FormatDurationShape(3600);
    FormatDurationShape(3661);
  }

  /** Worked values of the live rendering, including a clock behind the
      start, where JavaScript's truncating `%` yields negative components. */
  lemma LiveExamples()
    ensures FormatDurationFromStart(0, 65_000) == "1m 5s"
    ensures FormatDurationFromStart(0, 3_725_999) == "1h 2m 5s"
    ensures FormatDurationFromStart(5_000, 0) == "-1m -5s"
  {
    LiveMinutesExample();
    LiveHoursExample();
    LiveNegativeExample();
  }

  lemma LiveMinutesExample()
    ensures FormatDurationFromStart(0, 65_000) == "1m 5s"
  {
    var h, m, s := LiveShape(0, 65_000);
    assert h == 0 && m == 1 && s == 5;
    assert NatToString(1) == "1";
    assert NatToString(5) == "5";
  }

  lemma LiveHoursExample()
    ensures FormatDurationFromStart(0, 3_725_999) == "1h 2m 5s"
  {
    var h, m, s := LiveShape(0, 3_725_999);
    assert h == 1 && m == 2 && s == 5;
    assert NatToString(1) == "1";
    assert NatToString(2) == "2";
    assert NatToString(5) == "5";
  }

  /** A clock behind the start: JavaScript's `%` keeps the sign of the
      dividend, so both tokens come out negative. */
  lemma LiveNegativeExample()
    ensures FormatDurationFromStart(5_000, 0) == "-1m -5s"
  {
    assert JsRem(-5, 3600) == -5 && JsRem(-5, 60) == -5;
    assert (0 - 5_000) / 1000 == -5 && -5 / 3600 == -1 && -5 / 60 == -1;
    assert NatToString(1) == "1" && NatToString(5) == "5";
    assert IntToString(-1) == "-1" && IntToString(-5) == "-5";
    assert IntToString(-1) + "m" == "-1m" && IntToString(-5) + "s" == "-5s";
    JoinTwo("-1m", "-5s");
    var parts: seq<string> := [] + [IntToString(JsRem(-5, 3600) / 60) + "m", IntToString(JsRem(-5, 60)) + "s"];
    assert FormatDurationFromStart(5_000, 0) == Join(parts, " ");
    assert parts == ["-1m", "-5s"];
  }

}

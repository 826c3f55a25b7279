/** The progress arithmetic of the installer: the download percent, the
    throughput and ETA of every download tick, the "Xm Ys" text of the ETA,
    and the clamped percent of the extraction poll. JavaScript's numbers are
    taken as exact reals; `Math.round`, `Math.floor`, `Math.min` and `%` are
    written out below. */
module Progress {

  import opened Wrappers
  import opened Text

  /** `Math.round`: the nearest integer, halves rounded up. */
  function Round(x: real): (n: int)
    ensures x - 0.5 < n as real <= x + 0.5
  {
    (x + 0.5).Floor
  }

  /** `Math.trunc`: drops the fraction, toward zero. */
  function Trunc(x: real): (n: int)
    ensures x >= 0.0 ==> n == x.Floor
    ensures x < 0.0 ==> x <= n as real <= 0.0 && n as real - 1.0 < x
  {
    if x >= 0.0 then x.Floor else -((-x).Floor)
  }

  /** JavaScript's `x % 60`: the remainder takes the sign of the dividend. */
  function Rem60(x: real): (r: real)
    ensures x >= 0.0 ==> 0.0 <= r < 60.0
    ensures x < 0.0 ==> -60.0 < r <= 0.0
    ensures (x - r) / 60.0 == ((x - r) / 60.0).Floor as real
  {
    x - 60.0 * Trunc(x / 60.0) as real
  }

  /** One `onDownloadProgress` call: bytes so far, the announced total
      (`progressEvent.total || 0`, so 0 when the server sent none) and
      `Date.now()` in milliseconds. */
  datatype Tick = Tick(loaded: nat, total: nat, now: int)

  /** `total > 0 ? Math.round((downloaded / total) * 100) : 0` */
  function DownloadPercent(loaded: nat, total: nat): (p: int)
    ensures total == 0 ==> p == 0
    ensures total > 0 ==>
      p as real - 0.5 <= loaded as real / total as real * 100.0 < p as real + 0.5
  {
    if total > 0 then Round(loaded as real / total as real * 100.0) else 0
  }

  /** `(currentTime - this.downloadStart) / 1000` */
  function ElapsedSeconds(now: int, start: int): real
  {
    (now - start) as real / 1000.0
  }

  /** Bytes per second; 0 until some time has passed. */
  function Speed(loaded: nat, elapsed: real): (speed: real)
    ensures elapsed > 0.0 ==> speed * elapsed == loaded as real
    ensures elapsed <= 0.0 ==> speed == 0.0
    ensures speed >= 0.0
  {
    if elapsed > 0.0 then loaded as real / elapsed else 0.0
  }

  /** Seconds left at the current speed; 0 while the speed is 0. */
  function Eta(loaded: nat, total: nat, speed: real): (eta: real)
    ensures speed > 0.0 ==> eta * speed == total as real - loaded as real
    ensures speed <= 0.0 ==> eta == 0.0
  {
    if speed > 0.0 then (total - loaded) as real / speed else 0.0
  }

  /** The ETA of a tick measured from the transfer's start time. */
  function TickEta(t: Tick, start: int): (eta: real)
    ensures t.now > start && t.loaded > 0 ==>
      eta * t.loaded as real == (t.total as real - t.loaded as real) * ElapsedSeconds(t.now, start)
    ensures !(t.now > start && t.loaded > 0) ==> eta == 0.0
  {
    var elapsed := ElapsedSeconds(t.now, start);
    var speed := Speed(t.loaded, elapsed);
    var eta := Eta(t.loaded, t.total, speed);
    assert t.now > start && t.loaded > 0 ==>
      eta * t.loaded as real == eta * (speed * elapsed) == (eta * speed) * elapsed;
    eta
  }

  /** `Math.floor(eta / 60)` */
  function EtaMinutes(eta: real): (m: int)
    ensures 60.0 * m as real <= eta < 60.0 * (m + 1) as real
  {
    (eta / 60.0).Floor
  }

  /** `Math.floor(eta % 60)` */
  function EtaSeconds(eta: real): (s: int)
    ensures eta >= 0.0 ==> 0 <= s < 60 && 60 * EtaMinutes(eta) + s == eta.Floor
    ensures eta < 0.0 ==> -60 <= s <= 0
    ensures s as real <= Rem60(eta) < s as real + 1.0
  {
    Rem60(eta).Floor
  }

  /** `etaMin > 0 ? `${etaMin}m ${etaSec}s` : `${etaSec}s``: the minutes are
      shown only when positive, and a negative ETA shows as signed seconds. */
  function EtaText(eta: real): (t: string)
    ensures var m := EtaMinutes(eta);
      ParseEta(t) == Some(EtaParts(if m > 0 then Some(m) else None, EtaSeconds(eta)))
    ensures eta >= 0.0 ==> ParseEta(t).Some? && WholeSeconds(ParseEta(t).value) == eta.Floor
  {
    EtaTextOf(EtaMinutes(eta), EtaSeconds(eta))
  }

  /** The text of given minutes and seconds, read back into its parts. */
  function EtaTextOf(m: int, s: int): (t: string)
    ensures m > 0 && s >= 0 ==> ParseEta(t) == Some(EtaParts(Some(m), s))
    ensures m <= 0 ==> ParseEta(t) == Some(EtaParts(None, s))
  {
    if m > 0 then
      var t := ShowInt(m) + ("m " + (ShowInt(s) + "s"));
      assert s >= 0 ==> ParseEta(t) == Some(EtaParts(Some(m), s)) by {
        if s >= 0 {
          ParseShowNat(s);
          ParseShowNat(m);
          ShowNatCanonical(s);
          ShowNatCanonical(m);
          ParseMinutesSeconds(ShowNat(m), ShowNat(s), "m " + (ShowNat(s) + "s"), m, s);
        }
      }
      t
    else
      var t := ShowInt(s) + "s";
      assert ParseEta(t) == Some(EtaParts(None, s)) by {
        if s >= 0 {
          ParseShowNat(s);
          ShowNatCanonical(s);
          ParseSeconds(ShowNat(s));
        } else {
          ParseShowNat(-s);
          ShowNatCanonical(-s);
          ParseNegativeSeconds(ShowNat(-s));
          assert t == "-" + (ShowNat(-s) + "s");
        }
      }
      t
  }

  /** The percent polled from the extraction counter after `count` ticks:
      `Math.min(Math.round((count / totalEntries) * 100), 99)`. With no entries
      the quotient is Infinity and the minimum is 99. */
  function PollPercent(count: nat, totalEntries: nat): (p: int)
    requires count >= 1
    ensures 0 <= p <= 99
    ensures totalEntries == 0 ==> p == 99
    ensures totalEntries > 0 && p == 99 ==> count as real / totalEntries as real * 100.0 >= 98.5
    ensures totalEntries > 0 && p < 99 ==>
      p as real - 0.5 <= count as real / totalEntries as real * 100.0 < p as real + 0.5
  {
    if totalEntries == 0 then 99
    else
      var p := Round(count as real / totalEntries as real * 100.0);
      if p < 99 then p else 99
  }

  // ---------------------------------------------------------------------
  // What the arithmetic guarantees

  /** With no more bytes than announced, the download percent is 0..100. */
  lemma DownloadPercentInRange(loaded: nat, total: nat)
    requires loaded <= total
    ensures 0 <= DownloadPercent(loaded, total) <= 100
    ensures total == 0 ==> DownloadPercent(loaded, total) == 0
  {
  }

  /** A response without a size reports 0 percent however many bytes came in. */
  lemma UnknownTotalPercentZero(loaded: nat)
    ensures DownloadPercent(loaded, 0) == 0
  {
  }

  /** All bytes in means 100 percent; none means 0. */
  lemma DownloadPercentEnds(total: nat)
    requires total > 0
    ensures DownloadPercent(total, total) == 100
    ensures DownloadPercent(0, total) == 0
  {
    assert total as real / total as real == 1.0;
    assert 0 as real / total as real == 0.0;
  }

  /** More bytes never lower the percent. */
  lemma DownloadPercentMonotone(a: nat, b: nat, total: nat)
    requires a <= b
    ensures DownloadPercent(a, total) <= DownloadPercent(b, total)
  {
    if total > 0 {
      var t := total as real;
      assert a as real / t <= b as real / t by {
        assert (b as real / t - a as real / t) * t == b as real - a as real;
      }
    }
  }

  /** Neither the speed nor the ETA divides by zero, and with no more bytes
      than announced the ETA is never negative. */
  lemma EtaNonNegative(t: Tick, start: int)
    requires t.loaded <= t.total
    ensures TickEta(t, start) >= 0.0
  {
  }

  /** When the server announces no size, `total - downloaded` is negative and
      the ETA is the elapsed time with its sign flipped. */
  lemma UnknownTotalEtaIsMinusElapsed(t: Tick, start: int)
    requires t.total == 0 && t.loaded > 0 && t.now > start
    ensures TickEta(t, start) == -ElapsedSeconds(t.now, start)
  {
  }

  /** So the text then shows a negative number of seconds. */
  lemma UnknownTotalShowsNegativeEta()
    ensures EtaText(TickEta(Tick(1000, 0, 5000), 0)) == "-5s"
  {
    var eta := TickEta(Tick(1000, 0, 5000), 0);
    assert eta * 1000.0 == -1000.0 * 5.0;
    assert eta == -5.0;
    assert EtaMinutes(eta) == -1;
    assert EtaSeconds(eta) == -5;
    assert ShowNat(5) == "5";
  }


  /** The numbers an ETA text shows: the minutes, when shown, and the
      (signed) seconds. */
  datatype EtaParts = EtaParts(minutes: Option<nat>, seconds: int)

  /** The seconds the parts add up to. */
  function WholeSeconds(p: EtaParts): int
  {
    60 * (if p.minutes.Some? then p.minutes.value else 0) + p.seconds
  }

  /** Reads an ETA text back into its parts: "-Ns" with N positive, "Ns", or
      "Mm Ns" with M positive; every number is written as `${n}` writes it. */
  function ParseEta(t: string): Option<EtaParts>
  {
    if |t| > 0 && t[0] == '-' then
      match ParseSecondsField(t[1..])
      case Some(n) => if n > 0 then Some(EtaParts(None, -(n as int))) else None
      case None => None
    else
      var d := DigitPrefix(t);
      if !Canonical(d) then None else ParseEtaTail(ParseNat(d), t[|d|..])
  }

  /** What follows the first number: "s", or "m " and the seconds. */
  function ParseEtaTail(lead: nat, rest: string): Option<EtaParts>
  {
    if rest == "s" then Some(EtaParts(None, lead))
    else if lead > 0 && |rest| >= 2 && rest[..2] == "m " then
      match ParseSecondsField(rest[2..])
      case Some(sec) => Some(EtaParts(Some(lead), sec))
      case None => None
    else None
  }

  /** A number followed by "s" and nothing else. */
  function ParseSecondsField(r: string): Option<nat>
  {
    var d := DigitPrefix(r);
    if Canonical(d) && r[|d|..] == "s" then Some(ParseNat(d)) else None
  }



  /** The parser accepts only what the printer writes: any text it reads is
      exactly the text printed for the parts it reads. */
  lemma ParseEtaExact(t: string)
    requires ParseEta(t).Some?
    ensures var p := ParseEta(t).value;
      t == EtaTextOf(if p.minutes.Some? then p.minutes.value else 0, p.seconds)
  {
    if |t| > 0 && t[0] == '-' {
      NegativeTextExact(t);
    } else {
      var d := DigitPrefix(t);
      var rest := t[|d|..];
      assert t == d + rest;
      assert ParseEta(t) == ParseEtaTail(ParseNat(d), rest);
      if rest == "s" {
        SecondsTextExact(d);
      } else {
        MinutesTextExact(d, rest);
      }
    }
  }

  /** Texts the source never prints are refused. Zero has no sign: "0s" is
      read, "-0s" is not. */
  lemma SignedZeroRefused()
    ensures ParseEta("-0s") == None
    ensures ParseEta("0s") == Some(EtaParts(None, 0))
  {
    assert DigitPrefix("0s") == "0" by { DigitPrefixOfDigits("0", "s"); }
    assert "-0s"[1..] == "0s";
  }

  /** Numbers with leading zeros are refused. */
  lemma LeadingZerosRefused()
    ensures ParseEta("05s") == None && ParseEta("007m 5s") == None
  {
    assert DigitPrefix("05s") == "05" by { DigitPrefixOfDigits("05", "s"); }
    assert DigitPrefix("007m 5s") == "007" by { DigitPrefixOfDigits("007", "m 5s"); }
  }

  /** Minutes are shown only when positive, so "0m 5s" is refused. */
  lemma ZeroMinutesRefused()
    ensures ParseEta("0m 5s") == None
  {
    assert DigitPrefix("0m 5s") == "0" by { DigitPrefixOfDigits("0", "m 5s"); }
  }

  /** An ETA of 0, the ETA of a transfer's first tick, prints as "0s". */
  lemma ZeroEtaText()
    ensures EtaText(0.0) == "0s"
  {
    assert EtaMinutes(0.0) == 0;
    assert EtaSeconds(0.0) == 0;
    assert EtaTextOf(0, 0) == ShowNat(0) + "s";
  }

  lemma NegativeTextExact(t: string)
    requires |t| > 0 && t[0] == '-' && ParseEta(t).Some?
    ensures ParseEta(t).value.minutes.None?
    ensures t == EtaTextOf(0, ParseEta(t).value.seconds)
  {
    var r := t[1..];
    var d := DigitPrefix(r);
    var n := ParseNat(d);
    ShowParseNat(d);
    assert r == d + "s";
    assert ParseEta(t).value.seconds == -(n as int);
    assert EtaTextOf(0, -(n as int)) == ShowInt(-(n as int)) + "s";
    assert t == [t[0]] + r;
  }

  lemma SecondsTextExact(d: string)
    requires AllDigits(d) && Canonical(d)
    ensures d + "s" == EtaTextOf(0, ParseNat(d))
  {
    ShowParseNat(d);
  }

  lemma MinutesTextExact(d: string, rest: string)
    requires AllDigits(d) && Canonical(d) && rest != "s"
    requires ParseEtaTail(ParseNat(d), rest).Some?
    ensures var p := ParseEtaTail(ParseNat(d), rest).value;
      p.minutes == Some(ParseNat(d)) && d + rest == EtaTextOf(ParseNat(d), p.seconds)
  {
    var m := ParseNat(d);
    var r := rest[2..];
    var d2 := DigitPrefix(r);
    var sec := ParseNat(d2);
    ShowParseNat(d);
    ShowParseNat(d2);
    assert r == d2 + "s";
    assert rest == rest[..2] + r;
    assert EtaTextOf(m, sec) == ShowInt(m) + ("m " + (ShowInt(sec) + "s"));
  }

  lemma ParseSeconds(d: string)
    requires AllDigits(d) && Canonical(d)
    ensures ParseSecondsField(d + "s") == Some(ParseNat(d))
    ensures ParseEta(d + "s") == Some(EtaParts(None, ParseNat(d)))
  {
    DigitPrefixOfDigits(d, "s");
    assert (d + "s")[0] == d[0];
    assert (d + "s")[|d|..] == "s";
  }

  lemma ParseNegativeSeconds(d: string)
    requires AllDigits(d) && Canonical(d) && ParseNat(d) > 0
    ensures ParseEta("-" + (d + "s")) == Some(EtaParts(None, -(ParseNat(d) as int)))
  {
    assert ("-" + (d + "s"))[1..] == d + "s";
    ParseSeconds(d);
  }

  lemma ParseMinutesSeconds(a: string, b: string, tail: string, lead: nat, sec: nat)
    requires AllDigits(a) && Canonical(a) && AllDigits(b) && Canonical(b)
    requires tail == "m " + (b + "s")
    requires ParseNat(a) > 0
    requires lead == ParseNat(a) && sec == ParseNat(b)
    ensures ParseEta(a + tail) == Some(EtaParts(Some(lead), sec))
  {
    assert tail[0] == 'm';
    ParseLeadingNumber(a, tail);
    ParseMinutesTail(lead, b);
  }

  lemma ParseLeadingNumber(a: string, tail: string)
    requires AllDigits(a) && Canonical(a) && tail != [] && !IsDigit(tail[0])
    ensures ParseEta(a + tail) == ParseEtaTail(ParseNat(a), tail)
  {
    DigitPrefixOfDigits(a, tail);
    assert (a + tail)[0] == a[0];
    assert (a + tail)[|a|..] == tail;
  }

  lemma ParseMinutesTail(lead: nat, b: string)
    requires lead > 0 && AllDigits(b) && Canonical(b)
    ensures ParseEtaTail(lead, "m " + (b + "s")) == Some(EtaParts(Some(lead), ParseNat(b)))
  {
    var tail := "m " + (b + "s");
    assert tail[..2] == "m ";
    assert tail[2..] == b + "s";
    assert tail != "s";
    ParseSeconds(b);
  }


  /** Once the counter has reached the entry count, the poll reports 99. */
  lemma PollPercentSaturates(count: nat, totalEntries: nat)
    requires count >= 1 && count >= totalEntries
    ensures PollPercent(count, totalEntries) == 99
  {
    if totalEntries > 0 {
      var q := count as real / totalEntries as real;
      assert q * totalEntries as real == count as real;
      assert q >= 1.0;
    }
  }
}

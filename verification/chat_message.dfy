/** The two computed labels of `ChatMessage.jsx`: whether a bubble is short
    enough for the compact layout, and the "N units ago" caption. */
module ChatMessage {
  import opened Outcome
  import opened Text
  import opened Arith

  const MaxShort: nat := 32

  /** `String(content || "").trim()`. */
  function Trimmed(content: Option<string>): string {
    JsTrim(content.GetOr(""))
  }

  /** `t.split(/\r?\n/).length`: every line feed, with or without a
      carriage return before it, ends one line. Dropping the carriage
      returns does not change how many pieces there are. */
  function LineCount(t: string): (n: nat)
    ensures n == Count(t, '\n') + 1
  {
    SplitCount(t, '\n');
    |Split(t, '\n')|
  }

  /** `isShort`: a non-blank message of at most 32 UTF-16 code units and
      at most two lines. */
  predicate IsShort(content: Option<string>) {
    var t := Trimmed(content);
    0 < Utf16Len(t) <= MaxShort && LineCount(t) <= 2
  }

  /** The short layout holds between one and 32 characters, at most one of
      them a line feed, and never applies to a missing or blank message. */
  lemma ShortBounds(content: Option<string>)
    ensures IsShort(content) <==>
      var t := Trimmed(content);
      t != [] && Utf16Len(t) <= MaxShort && Count(t, '\n') <= 1
    ensures IsShort(content) ==> 1 <= |Trimmed(content)| <= MaxShort
    ensures content.None? ==> !IsShort(content)
  {
    var t := Trimmed(content);
    Utf16LenBounds(t);
    assert content.None? ==> t == [] by {
      if content.None? {
        assert AllSatisfy([], IsJsSpace);
      }
    }
  }

  /** A caption value and its unit letter (s, m, h or d). */
  datatype Ago = Ago(n: nat, unit: char)

  /** `Math.max(0, Math.floor((now - ts) / 1000))`; division by a positive
      divisor in Dafny is floor division. */
  function Elapsed(ts: int, now: int): (s: nat)
    ensures now <= ts ==> s == 0
    ensures now >= ts ==> s * 1000 <= now - ts < s * 1000 + 1000
  {
    var q := (now - ts) / 1000;
    if q < 0 then 0 else q
  }

  /** The unit ladder: seconds below a minute, minutes below an hour, hours
      below a day, days otherwise, each value the floor of the previous one
      divided by 60, 60 or 24. */
  function AgoOf(s: nat): (a: Ago)
    ensures a.unit in "smhd"
    ensures a.unit == 's' <==> s < 60
    ensures a.unit == 'm' <==> 60 <= s < 3600
    ensures a.unit == 'h' <==> 3600 <= s < 86400
    ensures a.unit == 'd' <==> 86400 <= s
    ensures a.unit == 's' ==> a.n == s
    ensures a.unit == 'm' ==> a.n == s / 60 && 1 <= a.n < 60
    ensures a.unit == 'h' ==> a.n == s / 3600 && 1 <= a.n < 24
    ensures a.unit == 'd' ==> a.n == s / 86400 && a.n >= 1
  {
    if s < 60 then Ago(s, 's')
    else
      var m := s / 60;
      if m < 60 then Ago(m, 'm')
      else
        var h := m / 60;
        DivDiv(s, 60, 60);
        if h < 24 then Ago(h, 'h')
        else
          DivDiv(s, 3600, 24);
          Ago(h / 24, 'd')
  }

  /** A later moment never shows a smaller unit. */
  lemma AgoUnitMonotone(s1: nat, s2: nat)
    requires s1 <= s2
    ensures Rank(AgoOf(s1).unit) <= Rank(AgoOf(s2).unit)
  {
  }

  function Rank(unit: char): nat {
    if unit == 's' then 0 else if unit == 'm' then 1 else if unit == 'h' then 2 else 3
  }

  /** `relText`: empty for a missing or zero timestamp, otherwise the value
      and unit followed by " ago". */
  function RelText(ts: Option<int>, now: int): (r: string)
    ensures ts.None? || ts == Some(0) ==> r == ""
    ensures ts.Some? && ts.value != 0 ==>
      var a := AgoOf(Elapsed(ts.value, now));
      r == NatToString(a.n) + [a.unit] + " ago"
  {
    if ts.None? || ts.value == 0 then ""
    else
      var a := AgoOf(Elapsed(ts.value, now));
      NatToString(a.n) + [a.unit] + " ago"
  }

  /** A caption can be read back: its leading digits give the value and the
      letter after them the unit. */
  lemma RelTextParses(ts: int, now: int)
    requires ts != 0
    ensures var r := RelText(Some(ts), now);
      var a := AgoOf(Elapsed(ts, now));
      var k := |NatToString(a.n)|;
      k < |r| && ParsePyInt(r[..k]) == Some(a.n) && r[k] == a.unit
  {
    var a := AgoOf(Elapsed(ts, now));
    var r := RelText(Some(ts), now);
    var k := |NatToString(a.n)|;
    assert r[..k] == NatToString(a.n);
    ParseNatToString(a.n);
  }

  /** A timestamp in the future reads "0s ago". */
  lemma FutureIsNow(ts: int, now: int)
    requires ts != 0 && now <= ts
    ensures RelText(Some(ts), now) == "0s ago"
  {
    assert NatToString(0) == "0";
  }
}

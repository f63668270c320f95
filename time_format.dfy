/** The reading-time formatter of the time service (`convertTime`): a number
    of seconds rendered as `<h>h <m>m <s>s`, each part present only when it
    is positive. The module also gives an independent description of the
    output (the list of parts, joined by single spaces) and a parser for it,
    so that the formatter can be shown to lose no information. */
module TimeFormat {
  import opened Js

  /** `Math.floor(a / b)` for a positive divisor: Dafny's Euclidean division
      rounds down when the divisor is positive. */
  function FloorDiv(a: int, b: int): int
    requires b > 0
  {
    a / b
  }

  /** JavaScript's `%`, whose result takes the sign of the dividend. */
  function TruncRem(a: int, b: int): (r: int)
    requires b > 0
    ensures a >= 0 ==> 0 <= r < b
    ensures a < 0 ==> -b < r <= 0
    ensures a >= 0 ==> a == (a / b) * b + r
    ensures a < 0 ==> a == -((-a) / b) * b + r
  {
    if a >= 0 then a % b else -((-a) % b)
  }

  /** The hours, minutes within the hour and seconds within the minute that
      `convertTime` computes. */
  function Components(seconds: int): (hms: (int, int, int))
    ensures seconds >= 0 ==> hms.0 >= 0 && 0 <= hms.1 < 60 && 0 <= hms.2 < 60
    ensures seconds >= 0 ==> hms.0 * 3600 + hms.1 * 60 + hms.2 == seconds
    ensures seconds < 0 ==> hms.0 < 0 && hms.1 <= 0 && hms.2 <= 0
  {
    var minutes := FloorDiv(seconds, 60);
    var remainingSeconds := TruncRem(seconds, 60);
    var hours := FloorDiv(minutes, 60);
    var remainingMinutes := TruncRem(minutes, 60);
    (hours, remainingMinutes, remainingSeconds)
  }

  // ---------------------------------------------------------------------
  // Decimal rendering of a non-negative integer (template `${n}`)
  // ---------------------------------------------------------------------

  function DigitChar(d: int): (c: char)
    requires 0 <= d < 10
    ensures IsDigit(c)
  {
    ('0' as int + d) as char
  }

  function DigitValue(c: char): int {
    c as int - '0' as int
  }

  predicate AllDigits(s: string) {
    forall i :: 0 <= i < |s| ==> IsDigit(s[i])
  }

  function NatToString(n: nat): (r: string)
    ensures |r| > 0
  {
    if n < 10 then [DigitChar(n)] else NatToString(n / 10) + [DigitChar(n % 10)]
  }

  /** The decimal rendering consists of digits, with no leading zero. */
  lemma {:induction false} NatToStringDigits(n: nat)
    ensures AllDigits(NatToString(n))
    ensures n > 0 ==> NatToString(n)[0] != '0'
  {
    if n >= 10 {
      NatToStringDigits(n / 10);
    }
  }

  /** The value of a string of decimal digits. */
  function ParseDigits(ds: string): int {
    if ds == [] then 0
    else ParseDigits(ds[..|ds| - 1]) * 10 + DigitValue(ds[|ds| - 1])
  }

  lemma {:induction false} ParseNatToString(n: nat)
    ensures ParseDigits(NatToString(n)) == n
  {
    NatToStringDigits(n);
    if n >= 10 {
      var r := NatToString(n);
      assert r[..|r| - 1] == NatToString(n / 10);
      ParseNatToString(n / 10);
    }
  }

  // ---------------------------------------------------------------------
  // String.prototype.trim
  // ---------------------------------------------------------------------

  /** `s` without its leading whitespace. */
  function TrimStart(s: string): (r: string)
    ensures r == [] || !IsWhitespace(r[0])
    ensures |r| <= |s| && r == s[|s| - |r|..]
    ensures forall i :: 0 <= i < |s| - |r| ==> IsWhitespace(s[i])
  {
    if s != [] && IsWhitespace(s[0]) then TrimStart(s[1..]) else s
  }

  /** `s` without its trailing whitespace. */
  function TrimEnd(s: string): (r: string)
    ensures r == [] || !IsWhitespace(r[|r| - 1])
    ensures |r| <= |s| && r == s[..|r|]
    ensures forall i :: |r| <= i < |s| ==> IsWhitespace(s[i])
  {
    if s != [] && IsWhitespace(s[|s| - 1]) then TrimEnd(s[..|s| - 1]) else s
  }

  function Trim(s: string): string {
    TrimEnd(TrimStart(s))
  }

  // ---------------------------------------------------------------------
  // convertTime, as the service writes it
  // ---------------------------------------------------------------------

  /** One `formattedTime += ...` step: the amount and its unit text are
      appended only when the amount is positive. */
  function AppendIfPositive(acc: string, amount: int, unitText: string): string {
    if amount > 0 then acc + NatToString(amount) + unitText else acc
  }

  /** The string convertTime builds before trimming: `<h>h `, then `<m>m `,
      then `<s>s`. */
  function Accumulate(hms: (int, int, int)): string {
    var formatted := "";
    var formatted := AppendIfPositive(formatted, hms.0, "h ");
    var formatted := AppendIfPositive(formatted, hms.1, "m ");
    var formatted := AppendIfPositive(formatted, hms.2, "s");
    formatted
  }

  function ConvertTime(seconds: int): string {
    Trim(Accumulate(Components(seconds)))
  }

  // ---------------------------------------------------------------------
  // Reference description: the parts that are present, joined by spaces
  // ---------------------------------------------------------------------

  datatype Part = Part(amount: nat, unit: char)

  predicate IsUnit(u: char) { u == 'h' || u == 'm' || u == 's' }

  /** The number of seconds in `amount` of the given unit. */
  function InSeconds(amount: int, u: char): int
    requires IsUnit(u)
  {
    if u == 'h' then amount * 3600 else if u == 'm' then amount * 60 else amount
  }

  function Render(p: Part): string {
    NatToString(p.amount) + [p.unit]
  }

  function Renders(ps: seq<Part>): (ws: seq<string>)
    ensures |ws| == |ps|
    ensures forall i :: 0 <= i < |ps| ==> ws[i] == Render(ps[i])
  {
    if ps == [] then [] else [Render(ps[0])] + Renders(ps[1..])
  }

  /** The rendered parts separated by single spaces. */
  function JoinParts(ps: seq<Part>): string {
    Join(Renders(ps))
  }

  /** The part for an amount of a unit, when the amount is positive. */
  function PartIfPositive(amount: int, u: char): seq<Part> {
    if amount > 0 then [Part(amount, u)] else []
  }

  /** The hour, minute and second parts that are greater than zero, in that order. */
  function PartsOf(hms: (int, int, int)): (ps: seq<Part>)
    ensures forall i :: 0 <= i < |ps| ==> IsUnit(ps[i].unit)
  {
    [] + PartIfPositive(hms.0, 'h') + PartIfPositive(hms.1, 'm') + PartIfPositive(hms.2, 's')
  }

  function Parts(seconds: int): seq<Part> {
    PartsOf(Components(seconds))
  }

  function TotalSeconds(parts: seq<Part>): int
    requires forall i :: 0 <= i < |parts| ==> IsUnit(parts[i].unit)
  {
    if parts == [] then 0
    else InSeconds(parts[0].amount, parts[0].unit) + TotalSeconds(parts[1..])
  }

  // ---------------------------------------------------------------------
  // A parser for the format, the inverse of convertTime
  // ---------------------------------------------------------------------

  /** Reads one `<digits><unit>` word as a number of seconds. */
  function ParseWord(w: string): Option<int> {
    if |w| < 2 || !IsUnit(w[|w| - 1]) || !AllDigits(w[..|w| - 1]) then None
    else Some(InSeconds(ParseDigits(w[..|w| - 1]), w[|w| - 1]))
  }

  function ParseWords(ws: seq<string>): Option<int> {
    if ws == [] then Some(0)
    else match (ParseWord(ws[0]), ParseWords(ws[1..]))
      case (Some(here), Some(more)) => Some(here + more)
      case _ => None
  }

  /** Reads words separated by single spaces and adds up their durations;
      the empty string is zero seconds. */
  function ParseDuration(s: string): Option<int> {
    if s == [] then Some(0) else ParseWords(Split(s))
  }

  // ---------------------------------------------------------------------
  // Properties
  // ---------------------------------------------------------------------

  /** Trimming a text that neither starts nor ends with whitespace, followed
      by nothing or by one space, gives back that text. */
  lemma {:induction false} TrimOneSpace(s: string, x: string, tail: string)
    requires x != [] && !IsWhitespace(x[0]) && !IsWhitespace(x[|x| - 1])
    requires tail == "" || tail == " "
    requires s == x + tail
    ensures Trim(s) == x
  {
    assert (x + tail)[0] == x[0];
    assert TrimStart(x + tail) == x + tail;
    if tail == " " {
      assert (x + tail)[..|x + tail| - 1] == x;
      assert TrimEnd(x + tail) == TrimEnd(x);
    } else {
      assert x + tail == x;
    }
    assert TrimEnd(x) == x;
  }

  /** A rendered part is a non-empty space-free word that starts with a digit
      and ends with its unit. */
  lemma {:induction false} RenderShape(p: Part)
    requires IsUnit(p.unit)
    ensures var w := Render(p); |w| >= 2 && IsDigit(w[0]) && w[|w| - 1] == p.unit && NoSpace(w)
    ensures Render(p)[..|Render(p)| - 1] == NatToString(p.amount)
  {
    NatToStringDigits(p.amount);
  }

  /** The join of the rendered parts starts with a digit and ends with a unit letter. */
  lemma {:induction false} JoinPartsEnds(parts: seq<Part>)
    requires parts != []
    requires forall i :: 0 <= i < |parts| ==> IsUnit(parts[i].unit)
    ensures var j := JoinParts(parts); j != [] && IsDigit(j[0]) && IsUnit(j[|j| - 1])
  {
    var ws := Renders(parts);
    forall i | 0 <= i < |ws| ensures ws[i] != [] {
      RenderShape(parts[i]);
    }
    JoinEnds(ws);
    RenderShape(parts[0]);
    RenderShape(parts[|parts| - 1]);
  }

  /** What follows a rendered part in the accumulated string: a space after
      hours and minutes, nothing after seconds. */
  function Separator(p: Part): string {
    if p.unit == 's' then "" else " "
  }

  function Spaced(ps: seq<Part>): string {
    if ps == [] then "" else Render(ps[0]) + Separator(ps[0]) + Spaced(ps[1..])
  }

  lemma {:induction false} SpacedAppend(xs: seq<Part>, ys: seq<Part>)
    ensures Spaced(xs + ys) == Spaced(xs) + Spaced(ys)
  {
    if xs == [] {
      assert xs + ys == ys;
    } else {
      assert (xs + ys)[0] == xs[0];
      assert (xs + ys)[1..] == xs[1..] + ys;
      SpacedAppend(xs[1..], ys);
    }
  }

  /** Each append step of convertTime renders one more part. */
  lemma {:induction false} SpacedStep(ps: seq<Part>, amount: int, u: char, unitText: string)
    requires unitText == [u] + Separator(Part(0, u))
    ensures Spaced(ps + PartIfPositive(amount, u)) == AppendIfPositive(Spaced(ps), amount, unitText)
  {
    if amount > 0 {
      var p := Part(amount, u);
      SpacedAppend(ps, [p]);
      assert Spaced([p]) == Render(p) + Separator(p) by {
        assert Spaced([p][1..]) == "";
      }
    } else {
      assert ps + [] == ps;
    }
  }

  lemma {:induction false} AccumulateSpaced(hms: (int, int, int))
    ensures Accumulate(hms) == Spaced(PartsOf(hms))
  {
    var h := [] + PartIfPositive(hms.0, 'h');
    var hm := h + PartIfPositive(hms.1, 'm');
    SpacedStep([], hms.0, 'h', "h ");
    SpacedStep(h, hms.1, 'm', "m ");
    SpacedStep(hm, hms.2, 's', "s");
  }

  /** The spaced rendering is the joined rendering followed by the last
      part's separator, when only the last part can be a seconds part. */
  lemma {:induction false} SpacedIsJoined(ps: seq<Part>)
    requires ps != []
    requires forall i :: 0 <= i < |ps| - 1 ==> ps[i].unit != 's'
    ensures Spaced(ps) == JoinParts(ps) + Separator(ps[|ps| - 1])
  {
    if |ps| == 1 {
      assert Spaced(ps[1..]) == "";
    } else {
      SpacedIsJoined(ps[1..]);
      assert Renders(ps)[1..] == Renders(ps[1..]);
    }
  }

  /** Trimming the spaced rendering leaves the joined rendering. */
  lemma {:induction false} SpacedTrimmed(ps: seq<Part>)
    requires forall i :: 0 <= i < |ps| ==> IsUnit(ps[i].unit)
    requires forall i :: 0 <= i < |ps| - 1 ==> ps[i].unit != 's'
    ensures Trim(Spaced(ps)) == JoinParts(ps)
  {
    if ps != [] {
      var joined, sep := JoinParts(ps), Separator(ps[|ps| - 1]);
      assert joined != [] && !IsWhitespace(joined[0]) && !IsWhitespace(joined[|joined| - 1]) by {
        JoinPartsEnds(ps);
      }
      assert Spaced(ps) == joined + sep by {
        SpacedIsJoined(ps);
      }
      TrimOneSpace(Spaced(ps), joined, sep);
    } else {
      assert Trim([]) == [];
    }
  }

  /** Only the last part can be a seconds part. */
  lemma {:induction false} SecondsLast(hms: (int, int, int))
    ensures var ps := PartsOf(hms); forall i :: 0 <= i < |ps| - 1 ==> ps[i].unit != 's'
  {
  }

  /** convertTime of a non-negative duration is exactly its positive parts,
      in the order hours, minutes, seconds, separated by single spaces. */
  lemma {:induction false} ConvertTimeIsJoinedParts(seconds: nat)
    ensures ConvertTime(seconds) == JoinParts(Parts(seconds))
  {
    var hms := Components(seconds);
    AccumulateSpaced(hms);
    SecondsLast(hms);
    SpacedTrimmed(PartsOf(hms));
  }

  lemma {:induction false} ParseWordRender(p: Part)
    requires IsUnit(p.unit)
    ensures ParseWord(Render(p)) == Some(InSeconds(p.amount, p.unit))
  {
    RenderShape(p);
    NatToStringDigits(p.amount);
    ParseNatToString(p.amount);
  }

  lemma {:induction false} ParseRenders(ps: seq<Part>)
    requires forall i :: 0 <= i < |ps| ==> IsUnit(ps[i].unit)
    ensures ParseWords(Renders(ps)) == Some(TotalSeconds(ps))
  {
    if ps != [] {
      ParseRenders(ps[1..]);
      ParseWordRender(ps[0]);
      assert Renders(ps)[1..] == Renders(ps[1..]);
    }
  }

  /** The join of the rendered parts reads back as their total. */
  lemma {:induction false} ParseJoinParts(ps: seq<Part>)
    requires forall i :: 0 <= i < |ps| ==> IsUnit(ps[i].unit)
    ensures ParseDuration(JoinParts(ps)) == Some(TotalSeconds(ps))
  {
    if ps != [] {
      var ws := Renders(ps);
      forall i | 0 <= i < |ws| ensures NoSpace(ws[i]) {
        RenderShape(ps[i]);
      }
      SplitJoin(ws);
      JoinPartsEnds(ps);
      ParseRenders(ps);
    }
  }

  lemma {:induction false} TotalSecondsAppend(xs: seq<Part>, ys: seq<Part>)
    requires forall i :: 0 <= i < |xs| ==> IsUnit(xs[i].unit)
    requires forall i :: 0 <= i < |ys| ==> IsUnit(ys[i].unit)
    ensures TotalSeconds(xs + ys) == TotalSeconds(xs) + TotalSeconds(ys)
  {
    if xs == [] {
      assert xs + ys == ys;
    } else {
      assert (xs + ys)[0] == xs[0];
      assert (xs + ys)[1..] == xs[1..] + ys;
      TotalSecondsAppend(xs[1..], ys);
    }
  }

  /** The parts add up to the duration they were taken from. */
  lemma {:induction false} PartsTotal(hms: (int, int, int))
    requires hms.0 >= 0 && hms.1 >= 0 && hms.2 >= 0
    ensures TotalSeconds(PartsOf(hms)) == hms.0 * 3600 + hms.1 * 60 + hms.2
  {
    var h := [] + PartIfPositive(hms.0, 'h');
    var hm := h + PartIfPositive(hms.1, 'm');
    TotalSecondsAppend(h, PartIfPositive(hms.1, 'm'));
    TotalSecondsAppend(hm, PartIfPositive(hms.2, 's'));
    assert h == PartIfPositive(hms.0, 'h');
  }

  /** Round trip: the text convertTime produces for a non-negative number of
      seconds reads back as that number of seconds. */
  lemma {:induction false} ConvertTimeRoundTrip(seconds: nat)
    ensures ParseDuration(ConvertTime(seconds)) == Some(seconds)
  {
    ConvertTimeIsJoinedParts(seconds);
    ParseJoinParts(Parts(seconds));
    PartsTotal(Components(seconds));
  }

  /** convertTime gives the empty string exactly for durations of zero or less. */
  lemma {:induction false} ConvertTimeEmpty(seconds: int)
    ensures ConvertTime(seconds) == "" <==> seconds <= 0
  {
    if seconds > 0 {
      ConvertTimeRoundTrip(seconds);
    } else {
      var hms := Components(seconds);
      assert Accumulate(hms) == "";
    }
  }

  /** The output never has leading or trailing whitespace. */
  lemma {:induction false} ConvertTimeTrimmed(seconds: int)
    ensures var r := ConvertTime(seconds);
      r == [] || (!IsWhitespace(r[0]) && !IsWhitespace(r[|r| - 1]))
  {
    if seconds > 0 {
      ConvertTimeIsJoinedParts(seconds);
      if Parts(seconds) != [] {
        JoinPartsEnds(Parts(seconds));
      }
    } else {
      ConvertTimeEmpty(seconds);
    }
  }

  /** `0m 0s` reads as zero seconds. */
  lemma {:induction false} ZeroPlaceholderParses()
    ensures ParseDuration("0m 0s") == Some(0)
  {
    var zero := [Part(0, 'm'), Part(0, 's')];
    ParseJoinParts(zero);
    assert NatToString(0) == "0";
    assert Render(zero[0]) == "0m" && Render(zero[1]) == "0s";
    assert Renders(zero) == ["0m", "0s"];
    assert JoinParts(zero) == "0m 0s";
  }

  /** The placeholder `0m 0s` answered for a missing record is a string
      convertTime never produces. */
  lemma {:induction false} ConvertTimeNeverZeroPlaceholder(seconds: int)
    ensures ConvertTime(seconds) != "0m 0s"
  {
    ConvertTimeEmpty(seconds);
    if seconds > 0 {
      ConvertTimeRoundTrip(seconds);
      ZeroPlaceholderParses();
    }
  }
}

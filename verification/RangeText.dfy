/** vllm/model_inspection.py: the range notation for layer indices, and reading it back. */
module RangeText {
  import opened Options

  /** Consecutive indices, both ends included. */
  datatype Range = Range(start: int, end: int)

  // ---- decimal numbers -----------------------------------------------------------

  const DIGITS: string := "0123456789"

  function Digits(n: nat): (s: string)
    ensures s != [] && forall k :: 0 <= k < |s| ==> '0' <= s[k] <= '9'
  {
    if n < 10 then [DIGITS[n]] else Digits(n / 10) + [DIGITS[n % 10]]
  }

  /** Python's `str` of an integer. */
  function Str(n: int): string {
    if n < 0 then "-" + Digits(-n) else Digits(n)
  }

  function ParseNat(s: string): Option<nat> {
    if s == [] then None
    else
      var last := s[|s| - 1];
      if !('0' <= last <= '9') then None
      else if |s| == 1 then Some((last - '0') as nat)
      else
        match ParseNat(s[..|s| - 1])
        case None => None
        case Some(high) => Some(high * 10 + (last - '0') as nat)
  }

  lemma {:induction false} DigitsParse(n: nat)
    ensures ParseNat(Digits(n)) == Some(n)
  {
    if n >= 10 {
      DigitsParse(n / 10);
      var s := Digits(n);
      assert s[..|s| - 1] == Digits(n / 10);
      assert s[|s| - 1] == DIGITS[n % 10];
      DigitValue(n % 10);
    } else {
      DigitValue(n);
    }
  }

  lemma DigitValue(d: nat)
    requires d < 10
    ensures '0' <= DIGITS[d] <= '9' && (DIGITS[d] - '0') as nat == d
  {
  }

  // ---- ranges as text ----------------------------------------------------------------

  function PrintRange(r: Range): string {
    if r.start == r.end then Str(r.start) else Str(r.start) + "-" + Str(r.end)
  }

  /** `", ".join` of the printed ranges. */
  function Join(pieces: seq<string>): string {
    if pieces == [] then ""
    else if |pieces| == 1 then pieces[0]
    else pieces[0] + ", " + Join(pieces[1..])
  }

  function PrintAll(ranges: seq<Range>): (pieces: seq<string>)
    ensures |pieces| == |ranges|
  {
    if ranges == [] then [] else PrintAll(ranges[..|ranges| - 1]) + [PrintRange(ranges[|ranges| - 1])]
  }

  lemma {:induction false} PrintAllAt(ranges: seq<Range>, k: nat)
    requires k < |ranges|
    ensures PrintAll(ranges)[k] == PrintRange(ranges[k])
  {
    if k < |ranges| - 1 {
      PrintAllAt(ranges[..|ranges| - 1], k);
    }
  }

  lemma PrintAllSnoc(ranges: seq<Range>, r: Range)
    ensures PrintAll(ranges + [r]) == PrintAll(ranges) + [PrintRange(r)]
  {
    assert (ranges + [r])[..|ranges|] == ranges;
  }

  function Print(ranges: seq<Range>): string {
    Join(PrintAll(ranges))
  }

  /** Cuts a text at every comma followed by a space. */
  function Split(text: string): (pieces: seq<string>)
    ensures pieces != []
  {
    if text == [] then [""]
    else if 2 <= |text| && text[0] == ',' && text[1] == ' ' then [""] + Split(text[2..])
    else
      var rest := Split(text[1..]);
      [[text[0]] + rest[0]] + rest[1..]
  }

  /** Position of the first dash, or the length. */
  function FirstDash(s: string): (k: nat)
    ensures k <= |s|
    ensures k < |s| ==> s[k] == '-'
    ensures forall j :: 0 <= j < k ==> s[j] != '-'
  {
    if s == [] || s[0] == '-' then 0 else 1 + FirstDash(s[1..])
  }

  function ParseRange(piece: string): Option<Range> {
    var k := FirstDash(piece);
    if k == |piece| then
      match ParseNat(piece)
      case Some(n) => Some(Range(n, n))
      case None => None
    else
      match (ParseNat(piece[..k]), ParseNat(piece[k + 1..]))
      case (Some(a), Some(b)) => Some(Range(a, b))
      case _ => None
  }

  function ParseAll(pieces: seq<string>): Option<seq<Range>> {
    if pieces == [] then Some([])
    else
      match (ParseRange(pieces[0]), ParseAll(pieces[1..]))
      case (Some(r), Some(rest)) => Some([r] + rest)
      case _ => None
  }

  function Parse(text: string): Option<seq<Range>> {
    ParseAll(Split(text))
  }

  /** The indices the ranges stand for, one range after the other. */
  function Expand(ranges: seq<Range>): seq<int> {
    if ranges == [] then []
    else Expand(ranges[..|ranges| - 1]) + Interval(ranges[|ranges| - 1].start, ranges[|ranges| - 1].end)
  }

  function Interval(a: int, b: int): seq<int> {
    if b < a then [] else seq(b - a + 1, k => a + k)
  }

  // ---- reading back ---------------------------------------------------------------------

  lemma RangeParses(r: Range)
    requires 0 <= r.start && 0 <= r.end
    ensures ParseRange(PrintRange(r)) == Some(r)
    ensures ',' !in PrintRange(r)
  {
    DigitsParse(r.start);
    DigitsParse(r.end);
    if r.start == r.end {
      NoDash(Digits(r.start));
    } else {
      PairParses(Digits(r.start), Digits(r.end));
    }
  }

  lemma PairParses(a: string, b: string)
    requires '-' !in a && ParseNat(a).Some? && ParseNat(b).Some?
    ensures ParseRange(a + "-" + b) == Some(Range(ParseNat(a).value, ParseNat(b).value))
  {
    DashAfter(a, b);
  }

  lemma NoDash(a: string)
    requires '-' !in a
    ensures FirstDash(a) == |a|
  {
  }

  lemma DashAfter(a: string, b: string)
    requires '-' !in a
    ensures var piece := a + "-" + b;
      FirstDash(piece) == |a| && |a| < |piece| && piece[..|a|] == a && piece[|a| + 1..] == b
  {
    var piece := a + "-" + b;
    assert piece[|a|] == '-';
    forall j | 0 <= j < |a| ensures piece[j] != '-' {
      assert piece[j] == a[j];
    }
  }

  lemma {:induction false} SplitPiece(piece: string, rest: string)
    requires ',' !in piece
    ensures Split(piece + ", " + rest) == [piece] + Split(rest)
    ensures Split(piece) == [piece]
  {
    if piece == [] {
      assert ", " + rest == piece + ", " + rest;
      assert (", " + rest)[2..] == rest;
    } else {
      SplitPiece(piece[1..], rest);
      var text := piece + ", " + rest;
      assert text[1..] == piece[1..] + ", " + rest;
      assert text[0] == piece[0] == piece[..1][0];
      assert [piece[0]] + piece[1..] == piece;
    }
  }

  /** Splitting a joined text gives the pieces back. */
  lemma {:induction false} SplitJoin(pieces: seq<string>)
    requires pieces != [] && forall k :: 0 <= k < |pieces| ==> ',' !in pieces[k]
    ensures Split(Join(pieces)) == pieces
  {
    if |pieces| == 1 {
      SplitPiece(pieces[0], "");
    } else {
      SplitJoin(pieces[1..]);
      SplitPiece(pieces[0], Join(pieces[1..]));
    }
  }

  lemma {:induction false} AllParse(pieces: seq<string>, ranges: seq<Range>)
    requires |pieces| == |ranges| && forall k :: 0 <= k < |pieces| ==> ParseRange(pieces[k]) == Some(ranges[k])
    ensures ParseAll(pieces) == Some(ranges)
  {
    if ranges != [] {
      AllParse(pieces[1..], ranges[1..]);
      assert [ranges[0]] + ranges[1..] == ranges;
      assert ParseRange(pieces[0]) == Some(ranges[0]);
    }
  }

  /** Printed ranges over non-negative indices read back as themselves. */
  lemma PrintParses(ranges: seq<Range>)
    requires ranges != [] && forall k :: 0 <= k < |ranges| ==> 0 <= ranges[k].start && 0 <= ranges[k].end
    ensures Parse(Print(ranges)) == Some(ranges)
  {
    var pieces := PrintAll(ranges);
    forall k | 0 <= k < |pieces| ensures ',' !in pieces[k] && ParseRange(pieces[k]) == Some(ranges[k]) {
      PrintAllAt(ranges, k);
      RangeParses(ranges[k]);
    }
    SplitJoin(pieces);
    AllParse(pieces, ranges);
  }
}

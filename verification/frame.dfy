/** The text frame the conversion-complete handler renders with
    `sprintf("B:%d%d%d%d%d%d%d%d,A:%d,%d,%d,%d\n", ...)`, a reader for that
    grammar, and the proof that the reader recovers the packet. */
module Frame {
  import opened Types
  import opened Axis

  /** The size of the `message` buffer, terminating NUL included. */
  const MESSAGE_SIZE: nat := 80

  /** The shared `gamepad_data` packet: eight button bytes and the four axes. */
  datatype Packet = Packet(buttons: seq<u8>, axes: Axes)

  predicate IsDigit(c: char) {
    '0' <= c <= '9'
  }

  predicate AllDigits(s: string) {
    forall i :: 0 <= i < |s| ==> IsDigit(s[i])
  }

  function DigitChar(d: nat): (c: char)
    requires d < 10
    ensures IsDigit(c)
  {
    ('0' as int + d) as char
  }

  function DigitValue(c: char): (d: nat)
    requires IsDigit(c)
    ensures d < 10 && DigitChar(d) == c
  {
    c as int - '0' as int
  }

  /** `%d` of a non-negative value: decimal digits, no leading zeros. */
  function NatToString(n: nat): (s: string)
    ensures |s| >= 1 && AllDigits(s)
    ensures |s| > 1 ==> s[0] != '0'
    decreases n
  {
    if n < 10 then [DigitChar(n)] else NatToString(n / 10) + [DigitChar(n % 10)]
  }

  /** `%d` of any int: a minus sign before the magnitude when negative. */
  function IntToString(n: int): (s: string)
    ensures |s| >= 1 && ',' !in s && '\n' !in s
    ensures n < 0 <==> s[0] == '-'
  {
    if n < 0 then "-" + NatToString(-n) else NatToString(n)
  }

  /** The eight `%d` button fields, in index order. */
  function ButtonDigits(bs: seq<int>): (s: string)
    requires forall i :: 0 <= i < |bs| ==> bs[i] >= 0
    ensures |s| >= |bs|
  {
    if bs == [] then [] else NatToString(bs[0]) + ButtonDigits(bs[1..])
  }

  /** The rendered line `B:<buttons>,A:<ly>,<lx>,<ry>,<rx>\n`. */
  function Render(p: Packet): (r: string)
    ensures |r| >= |p.buttons| + 13
    ensures r[..2] == "B:" && r[|r| - 1] == '\n'
  {
    "B:" + ButtonDigits(p.buttons) + ",A:" + IntToString(p.axes.leftY) + "," + IntToString(p.axes.leftX)
      + "," + IntToString(p.axes.rightY) + "," + IntToString(p.axes.rightX) + "\n"
  }

  // ---- the reader ----

  function ParseNat(s: string): (n: nat)
    requires AllDigits(s)
    decreases |s|
  {
    if s == [] then 0 else ParseNat(s[..|s| - 1]) * 10 + DigitValue(s[|s| - 1])
  }

  /** A `%d` field: optional minus sign, then at least one digit. */
  function ParseInt(s: string): Option<int> {
    if |s| > 1 && s[0] == '-' && AllDigits(s[1..]) then Some(0 - ParseNat(s[1..]))
    else if |s| > 0 && AllDigits(s) then Some(ParseNat(s))
    else None
  }

  /** The fields of `s` between occurrences of `sep`. */
  function Split(s: string, sep: char): (parts: seq<string>)
    ensures |parts| >= 1
    decreases |s|
  {
    if s == [] then [""]
    else if s[0] == sep then [""] + Split(s[1..], sep)
    else
      var rest := Split(s[1..], sep);
      [[s[0]] + rest[0]] + rest[1..]
  }

  function DigitValues(s: string): (bs: seq<u8>)
    requires AllDigits(s)
    ensures |bs| == |s|
  {
    if s == [] then [] else [DigitValue(s[0]) as u8] + DigitValues(s[1..])
  }

  /** Reads a frame whose button fields are single digits; None for any line
      outside that grammar. */
  function ParseFrame(s: string): Option<Packet> {
    if |s| < 14 || s[..2] != "B:" || s[10..13] != ",A:" || s[|s| - 1] != '\n' || !AllDigits(s[2..10]) then None
    else
      var fields := Split(s[13..|s| - 1], ',');
      if |fields| != 4 then None
      else
        match (ParseInt(fields[0]), ParseInt(fields[1]), ParseInt(fields[2]), ParseInt(fields[3]))
        case (Some(ly), Some(lx), Some(ry), Some(rx)) =>
          Some(Packet(DigitValues(s[2..10]), Axes(ly, lx, ry, rx)))
        case _ => None
  }

  // ---- round trip ----

  lemma {:induction false} ParseNatToString(n: nat)
    ensures ParseNat(NatToString(n)) == n
    decreases n
  {
    var s := NatToString(n);
    if n >= 10 {
      assert s[..|s| - 1] == NatToString(n / 10);
      ParseNatToString(n / 10);
    }
  }

  lemma ParseIntToString(n: int)
    ensures ParseInt(IntToString(n)) == Some(n)
  {
    var s := IntToString(n);
    if n < 0 {
      assert s[1..] == NatToString(-n);
      ParseNatToString(-n);
      assert ParseInt(s) == Some(0 - ParseNat(s[1..]));
    } else {
      assert s == NatToString(n) && s[0] != '-';
      ParseNatToString(n);
    }
  }

  lemma {:induction false} SplitNoSep(a: string, sep: char)
    requires sep !in a
    ensures Split(a, sep) == [a]
    decreases |a|
  {
    if a != [] {
      assert a == [a[0]] + a[1..];
      SplitNoSep(a[1..], sep);
    }
  }

  lemma {:induction false} SplitAtSep(a: string, sep: char, b: string)
    requires sep !in a
    ensures Split(a + [sep] + b, sep) == [a] + Split(b, sep)
    decreases |a|
  {
    var s := a + [sep] + b;
    if a == [] {
      assert s[1..] == b;
    } else {
      assert s[1..] == a[1..] + [sep] + b;
      assert a == [a[0]] + a[1..];
      SplitAtSep(a[1..], sep, b);
    }
  }

  /** Buttons that are single digits render as one character each. */
  lemma {:induction false} ButtonDigitsOfDigits(bs: seq<u8>)
    requires forall i :: 0 <= i < |bs| ==> bs[i] < 10
    ensures |ButtonDigits(bs)| == |bs|
    ensures forall i :: 0 <= i < |bs| ==> ButtonDigits(bs)[i] == DigitChar(bs[i])
    ensures AllDigits(ButtonDigits(bs)) && DigitValues(ButtonDigits(bs)) == bs
    decreases |bs|
  {
    if bs != [] {
      ButtonDigitsOfDigits(bs[1..]);
      var s := ButtonDigits(bs);
      assert s == [DigitChar(bs[0])] + ButtonDigits(bs[1..]);
      assert s[1..] == ButtonDigits(bs[1..]);
    }
  }

  /** Four `%d` fields joined by commas split back into those four fields. */
  lemma SplitFields(i0: string, i1: string, i2: string, i3: string)
    requires ',' !in i0 && ',' !in i1 && ',' !in i2 && ',' !in i3
    ensures Split(i0 + [','] + (i1 + [','] + (i2 + [','] + i3)), ',') == [i0, i1, i2, i3]
  {
    SplitNoSep(i3, ',');
    SplitAtSep(i2, ',', i3);
    SplitAtSep(i1, ',', i2 + [','] + i3);
    SplitAtSep(i0, ',', i1 + [','] + (i2 + [','] + i3));
  }

  /** The `,`-joined axis fields of a rendered line, grouped as one body. */
  lemma RenderConcat(bd: string, i0: string, i1: string, i2: string, i3: string)
    ensures "B:" + bd + ",A:" + i0 + "," + i1 + "," + i2 + "," + i3 + "\n"
            == "B:" + bd + ",A:" + (i0 + [','] + (i1 + [','] + (i2 + [','] + i3))) + "\n"
  {
  }

  /** Where the pieces of a rendered line sit, for eight one-character buttons. */
  lemma RenderLayout(bd: string, body: string, s: string)
    requires |bd| == BUTTON_COUNT && s == "B:" + bd + ",A:" + body + "\n"
    ensures |s| >= 14 && s[..2] == "B:" && s[2..10] == bd && s[10..13] == ",A:"
    ensures s[13..|s| - 1] == body && s[|s| - 1] == '\n'
  {
  }

  /** A line of the frame grammar with eight digit buttons and four
      readable fields is read back field by field. */
  lemma ParseLine(bd: string, i0: string, i1: string, i2: string, i3: string, a: Axes)
    requires |bd| == BUTTON_COUNT && AllDigits(bd)
    requires ',' !in i0 && ',' !in i1 && ',' !in i2 && ',' !in i3
    requires ParseInt(i0) == Some(a.leftY) && ParseInt(i1) == Some(a.leftX)
    requires ParseInt(i2) == Some(a.rightY) && ParseInt(i3) == Some(a.rightX)
    ensures ParseFrame("B:" + bd + ",A:" + (i0 + [','] + (i1 + [','] + (i2 + [','] + i3))) + "\n")
            == Some(Packet(DigitValues(bd), a))
  {
    var body := i0 + [','] + (i1 + [','] + (i2 + [','] + i3));
    RenderLayout(bd, body, "B:" + bd + ",A:" + body + "\n");
    SplitFields(i0, i1, i2, i3);
  }

  /** A packet of eight single-digit buttons (the firmware only stores 0 or 1)
      renders as `B:`, one digit per button in index order, `,A:`, then the
      four axes; the reader recovers the packet exactly. */
  lemma RenderParses(p: Packet)
    requires |p.buttons| == BUTTON_COUNT
    requires forall i :: 0 <= i < BUTTON_COUNT ==> p.buttons[i] < 10
    ensures forall i :: 0 <= i < BUTTON_COUNT ==> Render(p)[2 + i] == DigitChar(p.buttons[i])
    ensures ParseFrame(Render(p)) == Some(p)
  {
    var a := p.axes;
    var bd := ButtonDigits(p.buttons);
    ButtonDigitsOfDigits(p.buttons);
    var i0, i1, i2, i3 := IntToString(a.leftY), IntToString(a.leftX), IntToString(a.rightY), IntToString(a.rightX);
    var body := i0 + [','] + (i1 + [','] + (i2 + [','] + i3));
    var s := Render(p);
    RenderConcat(bd, i0, i1, i2, i3);
    assert s == "B:" + bd + ",A:" + body + "\n";
    ParseIntToString(a.leftY);
    ParseIntToString(a.leftX);
    ParseIntToString(a.rightY);
    ParseIntToString(a.rightX);
    ParseLine(bd, i0, i1, i2, i3, a);
    RenderLayout(bd, body, s);
    forall i | 0 <= i < BUTTON_COUNT
      ensures s[2 + i] == DigitChar(p.buttons[i])
    {
      assert s[2 + i] == s[2..10][i] == bd[i];
    }
  }

  // ---- length ----

  function Pow10(k: nat): (r: nat)
    ensures r >= 1
  {
    if k == 0 then 1 else 10 * Pow10(k - 1)
  }

  lemma {:induction false} NatToStringLength(n: nat, k: nat)
    requires k >= 1 && n < Pow10(k)
    ensures |NatToString(n)| <= k
    decreases k
  {
    if n >= 10 {
      assert k >= 2;
      NatToStringLength(n / 10, k - 1);
    }
  }

  lemma {:induction false} ButtonDigitsLength(bs: seq<u8>)
    ensures |ButtonDigits(bs)| <= 3 * |bs|
    decreases |bs|
  {
    if bs != [] {
      NatToStringLength(bs[0], 3);
      ButtonDigitsLength(bs[1..]);
    }
  }

  lemma Int16Length(n: int)
    requires -0x8000 <= n < 0x8000
    ensures |IntToString(n)| <= 6
  {
    NatToStringLength(Abs(n), 5);
  }

  /** Whatever the eight uint8_t buttons and four int16_t axes hold, the
      rendered line and its terminating NUL fit the 80-byte `message` buffer
      (at most 57 characters). */
  lemma RenderFitsBuffer(p: Packet)
    requires |p.buttons| == BUTTON_COUNT && Fits16(p.axes)
    ensures |Render(p)| <= 57 && |Render(p)| + 1 <= MESSAGE_SIZE
  {
    ButtonDigitsLength(p.buttons);
    Int16Length(p.axes.leftY);
    Int16Length(p.axes.leftX);
    Int16Length(p.axes.rightY);
    Int16Length(p.axes.rightX);
  }
}

/**
 Encoding a fixed-length array of unsigned integers
 (tools/monkey/monkey_patch_scale_info.py:5-55).  Elements follow the fixed-width little-endian
 integer encoding of the Polkadot Protocol Specification, appendix A.2.2.
 */
module FixedArray {
  import opened Common

  type byte = b: int | 0 <= b < 256

  /** The value handed in; `Missing` is None or another false value, `Other` any other kind. */
  datatype Value = Missing | Text(s: string) | Bytes(b: seq<byte>) | List(items: seq<int>) | Other

  datatype EncodeError = BadHex | NotAByte | NotBytes | WrongLength | NoHexPrefix | NotAList | OutOfRange

  predicate Width(w: nat)
  {
    w in {1, 2, 4, 8, 16, 32}
  }

  // ----- hexadecimal

  predicate HexDigit(ch: char)
  {
    '0' <= ch <= '9' || 'a' <= ch <= 'f' || 'A' <= ch <= 'F'
  }

  function DigitValue(ch: char): (d: nat)
    requires HexDigit(ch)
    ensures d < 16
  {
    if ch <= '9' then ch as int - '0' as int
    else if ch <= 'F' then ch as int - 'A' as int + 10
    else ch as int - 'a' as int + 10
  }

  predicate Space(ch: char)
  {
    ch as int == 32 || 9 <= ch as int <= 13
  }

  /** bytes.fromhex: white space between bytes is skipped. */
  function FromHex(s: string): Option<seq<byte>>
    decreases |s|
  {
    if s == "" then Some([])
    else if Space(s[0]) then FromHex(s[1..])
    else if |s| < 2 || !HexDigit(s[0]) || !HexDigit(s[1]) then None
    else
      match FromHex(s[2..])
      case None => None
      case Some(rest) => Some([DigitValue(s[0]) * 16 + DigitValue(s[1])] + rest)
  }

  const DIGITS := "0123456789abcdef"

  function ToHex(bytes: seq<byte>): string
  {
    if bytes == [] then "" else HexPair(bytes[0]) + ToHex(bytes[1..])
  }

  ghost function Spaces(s: string): nat
  {
    if s == "" then 0 else (if Space(s[0]) then 1 else 0) + Spaces(s[1..])
  }

  lemma DigitsAreDigits(d: nat)
    requires d < 16
    ensures HexDigit(DIGITS[d]) && DigitValue(DIGITS[d]) == d && !Space(DIGITS[d])
  {
  }

  /** A digit's value is its place among the sixteen, in either case; no other character is a digit. */
  lemma DigitMeaning(ch: char, d: nat)
    requires d < 16
    ensures HexDigit(ch) && DigitValue(ch) == d <==> ch == "0123456789abcdef"[d] || ch == "0123456789ABCDEF"[d]
  {
  }

  /** White space is blank, tab, line feed, vertical tab, form feed and carriage return. */
  lemma SpaceMeaning(ch: char)
    ensures Space(ch) <==> ch as int in [9, 10, 11, 12, 13, 32]
  {
  }

  function HexPair(b: byte): string
  {
    [DIGITS[b / 16], DIGITS[b % 16]]
  }

  lemma HexByte(b: byte, rest: string, tail: seq<byte>)
    requires FromHex(rest) == Some(tail)
    ensures FromHex(HexPair(b) + rest) == Some([b] + tail)
  {
    hide HexDigit, DigitValue, Space;
    DigitsAreDigits(b / 16);
    DigitsAreDigits(b % 16);
    assert (HexPair(b) + rest)[2..] == rest;
    assert (b / 16) * 16 + b % 16 == b;
  }

  lemma {:induction false} HexRoundTrip(bytes: seq<byte>)
    ensures FromHex(ToHex(bytes)) == Some(bytes) && |ToHex(bytes)| == 2 * |bytes|
  {
    if bytes != [] {
      hide FromHex, HexPair;
      HexRoundTrip(bytes[1..]);
      HexByte(bytes[0], ToHex(bytes[1..]), bytes[1..]);
      assert |HexPair(bytes[0])| == 2 by { PairLength(bytes[0]); }
      assert [bytes[0]] + bytes[1..] == bytes;
    } else {
      assert FromHex("") == Some([]);
    }
  }

  lemma PairLength(b: byte)
    ensures |HexPair(b)| == 2
  {
  }

  lemma HexDigitsAreNoSpaces(ch: char)
    ensures !(HexDigit(ch) && Space(ch))
  {
  }

  /** A text gives half as many bytes as it has characters that are no white space. */
  lemma {:induction false} FromHexLength(s: string)
    ensures FromHex(s).Some? ==> 2 * |FromHex(s).value| + Spaces(s) == |s|
    decreases |s|
  {
    if s != "" {
      if Space(s[0]) {
        FromHexLength(s[1..]);
      } else if |s| >= 2 && HexDigit(s[0]) && HexDigit(s[1]) {
        FromHexLength(s[2..]);
        HexDigitsAreNoSpaces(s[1]);
        assert s[1..][1..] == s[2..];
      }
    }
  }

  // ----- little-endian elements

  function Pow256(w: nat): nat
  {
    if w == 0 then 1 else 256 * Pow256(w - 1)
  }

  predicate Fits(w: nat, n: int)
  {
    0 <= n < Pow256(w)
  }

  function LittleEndian(w: nat, n: nat): (bytes: seq<byte>)
    ensures |bytes| == w
  {
    if w == 0 then [] else [n % 256] + LittleEndian(w - 1, n / 256)
  }

  function FromLittleEndian(bytes: seq<byte>): nat
  {
    if bytes == [] then 0 else bytes[0] + 256 * FromLittleEndian(bytes[1..])
  }

  lemma {:induction false} ElementRoundTrip(w: nat, n: nat)
    requires Fits(w, n)
    ensures FromLittleEndian(LittleEndian(w, n)) == n
  {
    if w > 0 {
      assert n / 256 < Pow256(w - 1);
      ElementRoundTrip(w - 1, n / 256);
      assert LittleEndian(w, n)[1..] == LittleEndian(w - 1, n / 256);
    }
  }

  lemma {:induction false} BytesRoundTrip(bytes: seq<byte>)
    ensures Fits(|bytes|, FromLittleEndian(bytes))
    ensures LittleEndian(|bytes|, FromLittleEndian(bytes)) == bytes
  {
    if bytes != [] {
      BytesRoundTrip(bytes[1..]);
      var n := FromLittleEndian(bytes);
      assert n % 256 == bytes[0] && n / 256 == FromLittleEndian(bytes[1..]);
      assert [bytes[0]] + bytes[1..] == bytes;
    }
  }

  /** An element's lowest byte comes first, and the element fits when nothing is left after its width. */
  lemma ElementMeaning(w: nat, n: nat)
    ensures w > 0 ==> LittleEndian(w, n)[0] == n % 256 && LittleEndian(w, n)[1..] == LittleEndian(w - 1, n / 256)
    ensures |LittleEndian(w, n)| == w
    ensures Fits(w, n) <==> if w == 0 then n == 0 else Fits(w - 1, n / 256)
    ensures !Fits(w, -1 - n)
  {
    if w > 0 {
      assert LittleEndian(w, n)[1..] == LittleEndian(w - 1, n / 256);
    }
  }

  predicate AllFit(w: nat, items: seq<int>)
  {
    forall i :: 0 <= i < |items| ==> Fits(w, items[i])
  }

  /** The elements one after another. */
  function EncodeItems(w: nat, items: seq<int>): seq<byte>
    requires AllFit(w, items)
  {
    if items == [] then []
    else EncodeItems(w, items[..|items| - 1]) + LittleEndian(w, items[|items| - 1])
  }

  /** A fixed-width decoder. */
  function DecodeItems(w: nat, bytes: seq<byte>): seq<int>
    requires w > 0
    decreases |bytes|
  {
    if |bytes| < w then []
    else DecodeItems(w, bytes[..|bytes| - w]) + [FromLittleEndian(bytes[|bytes| - w..])]
  }

  /** The length of `n` elements. */
  function Span(w: nat, n: nat): nat
  {
    if n == 0 then 0 else Span(w, n - 1) + w
  }

  lemma {:induction false} SpanMeaning(w: nat, n: nat)
    ensures Span(w, n) == w * n
  {
    if n > 0 {
      SpanMeaning(w, n - 1);
      assert w * n == w * (n - 1) + w;
    }
  }

  lemma {:induction false} ItemsLength(w: nat, items: seq<int>)
    requires AllFit(w, items)
    ensures |EncodeItems(w, items)| == Span(w, |items|)
  {
    if items != [] {
      hide LittleEndian, Fits;
      ItemsLength(w, items[..|items| - 1]);
    }
  }

  lemma EncodeOneMore(w: nat, items: seq<int>, last: int)
    requires AllFit(w, items) && Fits(w, last)
    ensures AllFit(w, items + [last])
    ensures EncodeItems(w, items + [last]) == EncodeItems(w, items) + LittleEndian(w, last)
  {
    hide LittleEndian, Fits;
    assert (items + [last])[..|items|] == items;
  }

  lemma DecodeOneMore(w: nat, init: seq<byte>, last: seq<byte>)
    requires w > 0 && |last| == w
    ensures DecodeItems(w, init + last) == DecodeItems(w, init) + [FromLittleEndian(last)]
  {
    hide FromLittleEndian;
    assert (init + last)[..|init|] == init && (init + last)[|init|..] == last;
  }

  lemma FitSplits(w: nat, items: seq<int>)
    requires AllFit(w, items) && items != []
    ensures AllFit(w, items[..|items| - 1]) && Fits(w, items[|items| - 1])
    ensures items == items[..|items| - 1] + [items[|items| - 1]]
  {
    hide Fits;
  }

  lemma {:induction false} ItemsRoundTrip(w: nat, items: seq<int>)
    requires w > 0 && AllFit(w, items)
    ensures DecodeItems(w, EncodeItems(w, items)) == items
  {
    if items != [] {
      hide *;
      FitSplits(w, items);
      var init, last := items[..|items| - 1], items[|items| - 1];
      FitsIsNatural(w, last);
      ItemsRoundTrip(w, init);
      EncodeOneMore(w, init, last);
      ElementRoundTrip(w, last);
      DecodeOneMore(w, EncodeItems(w, init), LittleEndian(w, last));
    }
  }

  lemma FitsIsNatural(w: nat, n: int)
    requires Fits(w, n)
    ensures n >= 0
  {
  }

  /** Every byte string of the right length is the encoding of one list. */
  lemma {:induction false} BytesAreItems(w: nat, bytes: seq<byte>, n: nat)
    requires w > 0 && |bytes| == Span(w, n)
    ensures AllFit(w, DecodeItems(w, bytes)) && |DecodeItems(w, bytes)| == n
    ensures EncodeItems(w, DecodeItems(w, bytes)) == bytes
  {
    if n > 0 {
      assert |bytes| == Span(w, n - 1) + w;
      hide *;
      var init, last := bytes[..|bytes| - w], bytes[|bytes| - w..];
      assert bytes == init + last;
      BytesAreItems(w, init, n - 1);
      BytesRoundTrip(last);
      EncodeOneMore(w, DecodeItems(w, init), FromLittleEndian(last));
      DecodeOneMore(w, init, last);
    }
  }

  // ----- the encoder

  predicate IsFalse(value: Value)
  {
    value == Missing || value == Text("") || value == Bytes([]) || value == List([])
  }

  predicate Prefixed(s: string)
  {
    "0x" <= s
  }

  /** The bytes a value stands for when the elements are single bytes. */
  function ByteValue(value: Value): Option<seq<byte>>
  {
    if IsFalse(value) then Some([])
    else
      match value
      case Text(s) => if Prefixed(s) then FromHex(s[2..]) else None
      case Bytes(b) => Some(b)
      case List(items) => if AllFit(1, items) then Some(AsBytes(items)) else None
      case _ => None
  }

  function AsBytes(items: seq<int>): seq<byte>
    requires AllFit(1, items)
  {
    seq(|items|, i requires 0 <= i < |items| => assert Pow256(1) == 256 by { assert Pow256(0) == 1; } items[i])
  }

  /** What the encoder accepts for wider elements, and the bytes it gives. */
  function WideValue(w: nat, count: nat, value: Value): Option<seq<byte>>
  {
    if IsFalse(value) then Some([])
    else
      match value
      case Text(s) => if Prefixed(s) && |s| - 2 == count * 2 * w then FromHex(s[2..]) else None
      case List(items) => if AllFit(w, items) then Some(EncodeItems(w, items)) else None
      case _ => None
  }

  /** process_encode */
  method ProcessEncode(w: nat, count: nat, value: Value) returns (r: Outcome<seq<byte>, EncodeError>)
    requires Width(w)
    ensures w == 1 ==> (r.Ok? <==> ByteValue(value).Some? && |ByteValue(value).value| == count)
    ensures w == 1 && r.Ok? ==> r.value == ByteValue(value).value
    ensures w > 1 ==> (r.Ok? <==> WideValue(w, count, value).Some?)
    ensures w > 1 && r.Ok? ==> r.value == WideValue(w, count, value).value
    ensures value.Missing? || value == Text("") || value == Bytes([]) || value == List([]) ==>
              (r.Ok? <==> w > 1 || count == 0) && (r.Ok? ==> r.value == [])
    ensures r.Err? ==>
              match r.error
              case BadHex => value.Text? && "0x" <= value.s && FromHex(value.s[2..]).None?
              case NoHexPrefix => w > 1 && value.Text? && value.s != "" && !("0x" <= value.s)
              case NotBytes => w == 1 && (value.Other? || (value.Text? && !("0x" <= value.s)))
              case NotAByte =>
                w == 1 && value.List? && exists i :: 0 <= i < |value.items| && !(0 <= value.items[i] < 256)
              case NotAList => w > 1 && (value.Other? || (value.Bytes? && value.b != []))
              case OutOfRange => w > 1 && value.List? && !AllFit(w, value.items)
              case WrongLength =>
                if w == 1 then ByteValue(value).Some? && |ByteValue(value).value| != count
                else value.Text? && |value.s| - 2 != count * 2 * w
  {
    var v := if IsFalse(value) then List([]) else value;
    if w == 1 {
      r := EncodeBytes(count, v);
      assert IsFalse(value) ==> ByteValue(value) == ByteValue(v);
      assert Pow256(1) == 256 by { assert Pow256(0) == 1; }
    } else {
      r := EncodeWide(w, count, v);
    }
  }

  /** What the errors for single bytes mean. */
  ghost predicate BytesError(count: nat, value: Value, e: EncodeError)
  {
    match e
    case BadHex => value.Text? && Prefixed(value.s) && FromHex(value.s[2..]).None?
    case NotAByte => value.List? && !AllFit(1, value.items)
    case NotBytes => value.Other? || value.Missing? || (value.Text? && !Prefixed(value.s))
    case WrongLength => ByteValue(value).Some? && |ByteValue(value).value| != count
    case _ => false
  }

  /** What the errors for wider elements mean. */
  ghost predicate WideError(w: nat, count: nat, value: Value, e: EncodeError)
  {
    match e
    case BadHex => value.Text? && Prefixed(value.s) && FromHex(value.s[2..]).None?
    case NoHexPrefix => value.Text? && !Prefixed(value.s)
    case WrongLength => value.Text? && |value.s| - 2 != count * 2 * w
    case NotAList => value.Other? || value.Missing? || value.Bytes?
    case OutOfRange => value.List? && !AllFit(w, value.items)
    case _ => false
  }

  method EncodeBytes(count: nat, value: Value) returns (r: Outcome<seq<byte>, EncodeError>)
    requires IsFalse(value) ==> value == List([])
    ensures r.Ok? <==> ByteValue(value).Some? && |ByteValue(value).value| == count
    ensures r.Ok? ==> r.value == ByteValue(value).value
    ensures r.Err? ==> BytesError(count, value, r.error)
  {
    var v := value;
    if v.Text? && Prefixed(v.s) {
      var decoded := FromHex(v.s[2..]);
      if decoded.None? { return Err(BadHex); }
      v := Bytes(decoded.value);
    }
    if v.List? {
      if !AllFit(1, v.items) { return Err(NotAByte); }
      v := Bytes(AsBytes(v.items));
    }
    if !v.Bytes? { return Err(NotBytes); }
    if |v.b| != count { return Err(WrongLength); }
    r := Ok(v.b);
  }

  method EncodeWide(w: nat, count: nat, value: Value) returns (r: Outcome<seq<byte>, EncodeError>)
    requires IsFalse(value) ==> value == List([])
    requires w > 1
    ensures r.Ok? <==> WideValue(w, count, value).Some?
    ensures r.Ok? ==> r.value == WideValue(w, count, value).value
    ensures r.Err? ==> WideError(w, count, value, r.error)
  {
    if value.Text? {
      if !Prefixed(value.s) { return Err(NoHexPrefix); }
      if |value.s| - 2 != count * 2 * w { return Err(WrongLength); }
      var decoded := FromHex(value.s[2..]);
      return if decoded.None? then Err(BadHex) else Ok(decoded.value);
    }
    if !value.List? { return Err(NotAList); }
    var data: seq<byte> := [];
    var items := value.items;
    for i := 0 to |items|
      invariant AllFit(w, items[..i]) && data == EncodeItems(w, items[..i])
    {
      if !Fits(w, items[i]) {
        assert !AllFit(w, items);
        return Err(OutOfRange);
      }
      assert items[..i + 1][..i] == items[..i];
      assert AllFit(w, items[..i + 1]);
      data := data + LittleEndian(w, items[i]);
    }
    assert items[..|items|] == items;
    r := Ok(data);
  }

  // ----- what the encodings are worth

  lemma {:induction false} BytesAreSingleItems(items: seq<int>)
    requires AllFit(1, items)
    ensures AsBytes(items) == EncodeItems(1, items)
  {
    if items != [] {
      var init, last := items[..|items| - 1], items[|items| - 1];
      BytesAreSingleItems(init);
      assert Pow256(1) == 256 by { assert Pow256(0) == 1; }
      assert LittleEndian(1, last) == [last] by { assert LittleEndian(0, last / 256) == []; }
      assert AsBytes(items) == AsBytes(init) + [last];
    }
  }

  /** For single bytes the list, the bytes themselves and their hexadecimal text are encoded alike. */
  lemma ByteFormsAgree(items: seq<int>)
    requires AllFit(1, items)
    ensures var bytes := EncodeItems(1, items);
            && ByteValue(List(items)) == Some(bytes) == ByteValue(Bytes(bytes)) == ByteValue(Text("0x" + ToHex(bytes)))
            && DecodeItems(1, bytes) == items && |bytes| == |items|
  {
    hide FromHex, ToHex, EncodeItems, DecodeItems, Fits;
    var bytes := EncodeItems(1, items);
    BytesAreSingleItems(items);
    ItemsRoundTrip(1, items);
    ItemsLength(1, items);
    SpanMeaning(1, |items|);
    HexRoundTrip(bytes);
    var s := "0x" + ToHex(bytes);
    assert s[2..] == ToHex(bytes);
  }

  /** A list has the declared length exactly when it has the declared number of items, which is not checked. */
  lemma ListLengthIff(w: nat, count: nat, items: seq<int>)
    requires w > 1 && AllFit(w, items)
    ensures WideValue(w, count, List(items)).Some?
    ensures |WideValue(w, count, List(items)).value| == count * w <==> |items| == count
    ensures DecodeItems(w, WideValue(w, count, List(items)).value) == items
  {
    hide DecodeItems, EncodeItems, Fits;
    ItemsRoundTrip(w, items);
    ItemsLength(w, items);
    SpanMeaning(w, |items|);
    SameMultiple(w, |items|, count);
  }

  lemma SameMultiple(w: nat, m: nat, n: nat)
    requires w > 0
    ensures w * m == n * w <==> m == n
  {
    if m < n { assert w * (n - m) > 0; }
    if n < m { assert w * (m - n) > 0; }
  }

  /** An accepted text has the declared length exactly when it holds no white space: the check counts characters. */
  lemma HexLengthIff(w: nat, count: nat, s: string)
    requires w > 1 && s != "" && WideValue(w, count, Text(s)).Some?
    ensures var bytes := WideValue(w, count, Text(s)).value;
            |bytes| <= count * w && (|bytes| == count * w <==> Spaces(s[2..]) == 0)
  {
    hide FromHex, Spaces;
    FromHexLength(s[2..]);
    assert count * 2 * w == 2 * (count * w);
  }

  /**
   When what is accepted has the declared length.  Nothing checks a list, a text is checked by its
   characters, and every value Python takes for false becomes the empty list before any check.
   */
  lemma WideLengthIff(w: nat, count: nat, value: Value)
    requires w > 1 && WideValue(w, count, value).Some?
    ensures |WideValue(w, count, value).value| == count * w <==>
            if IsFalse(value) then count == 0
            else match value
                 case Text(s) => Spaces(s[2..]) == 0
                 case List(items) => |items| == count
                 case _ => true
  {
    hide FromHex, Spaces, EncodeItems, Fits;
    if IsFalse(value) {
      ListLengthIff(w, count, []);
    } else {
      match value {
        case Text(s) => HexLengthIff(w, count, s);
        case List(items) => ListLengthIff(w, count, items);
        case _ =>
      }
    }
  }

  function Blanks(n: nat): (s: string)
    ensures |s| == n
  {
    if n == 0 then "" else " " + Blanks(n - 1)
  }

  lemma {:induction false} BlanksGiveNothing(n: nat)
    ensures FromHex(Blanks(n)) == Some([])
  {
    if n > 0 {
      BlanksGiveNothing(n - 1);
      assert Blanks(n)[1..] == Blanks(n - 1);
    }
  }

  /** For an array of any size, of elements wider than a byte, a text of blanks is accepted and encodes to nothing. */
  lemma BlanksAccepted(w: nat, count: nat)
    requires w > 1
    ensures WideValue(w, count, Text("0x" + Blanks(count * 2 * w))) == Some([])
  {
    var s := "0x" + Blanks(count * 2 * w);
    assert s[2..] == Blanks(count * 2 * w);
    BlanksGiveNothing(count * 2 * w);
  }

  /** A list and the hexadecimal text of its encoding are encoded alike. */
  lemma HexAgreesWithList(w: nat, items: seq<int>)
    requires w > 1 && AllFit(w, items)
    ensures WideValue(w, |items|, Text("0x" + ToHex(EncodeItems(w, items)))) == WideValue(w, |items|, List(items))
  {
    hide FromHex, ToHex, EncodeItems, Fits;
    var bytes := EncodeItems(w, items);
    ItemsLength(w, items);
    SpanMeaning(w, |items|);
    HexRoundTrip(bytes);
    var s := "0x" + ToHex(bytes);
    assert s[2..] == ToHex(bytes);
    assert |items| * 2 * w == 2 * (w * |items|);
  }
}

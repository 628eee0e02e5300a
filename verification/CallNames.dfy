/**
 The printed name of a call tree, and a parser that undoes it
 (tests/substrate_utils.py:12-26).
 */
module CallNames {
  import opened Common

  /** What the first argument of a call holds: a call, a list of calls, or anything else. */
  datatype Arg = Opaque | Single(call: Call) | Many(calls: seq<Call>)

  datatype Call = Call(pallet: string, fn: string, arg: Arg)

  datatype ShapeError = NotACall | NotAList

  predicate IsSudo(pallet: string, fn: string)
  {
    pallet == "Sudo" && fn == "sudo"
  }

  /** Every call of Utility, and every call named batch_all, is printed with its inner calls. */
  predicate IsBatch(pallet: string, fn: string)
  {
    pallet == "Utility" || fn == "batch_all"
  }

  // ----- the printer

  /** compose_extrinsic_name */
  function Compose(c: Call): Outcome<string, ShapeError>
    decreases c, 0
  {
    var name := c.pallet + "." + c.fn;
    if IsSudo(c.pallet, c.fn) then
      match c.arg
      case Single(inner) =>
        (match Compose(inner)
         case Ok(text) => Ok("[Sudo.sudo." + text + "]")
         case Err(e) => Err(e))
      case _ => Err(NotACall)
    else if !IsBatch(c.pallet, c.fn) then Ok(name)
    else
      match c.arg
      case Many(calls) =>
        (match ComposeAll(calls)
         case Ok(texts) => Ok(name + "(" + Join(texts) + ")")
         case Err(e) => Err(e))
      case _ => Err(NotAList)
  }

  function ComposeAll(calls: seq<Call>): (r: Outcome<seq<string>, ShapeError>)
    ensures r.Ok? ==> |r.value| == |calls|
    decreases calls, 1
  {
    if calls == [] then Ok([])
    else
      match Compose(calls[0])
      case Err(e) => Err(e)
      case Ok(first) =>
        match ComposeAll(calls[1..])
        case Err(e) => Err(e)
        case Ok(rest) => Ok([first] + rest)
  }

  function Join(texts: seq<string>): string
  {
    if texts == [] then ""
    else if |texts| == 1 then texts[0]
    else texts[0] + "," + Join(texts[1..])
  }

  // ----- shapes: what a name is about

  datatype Shape =
    | Leaf(pallet: string, fn: string)
    | Sudo(inner: Shape)
    | Batch(pallet: string, fn: string, calls: seq<Shape>)

  /** A call has a shape when its sudo holds a call and its batches hold lists. */
  predicate Shaped(c: Call)
    decreases c, 0
  {
    if IsSudo(c.pallet, c.fn) then c.arg.Single? && Shaped(c.arg.call)
    else if !IsBatch(c.pallet, c.fn) then true
    else c.arg.Many? && AllShaped(c.arg.calls)
  }

  predicate AllShaped(calls: seq<Call>)
    decreases calls, 1
  {
    calls == [] || (Shaped(calls[0]) && AllShaped(calls[1..]))
  }

  /** Arguments of other calls are dropped: they do not show in the name. */
  function ShapeOf(c: Call): Shape
    requires Shaped(c)
    decreases c, 0
  {
    if IsSudo(c.pallet, c.fn) then Sudo(ShapeOf(c.arg.call))
    else if !IsBatch(c.pallet, c.fn) then Leaf(c.pallet, c.fn)
    else Batch(c.pallet, c.fn, ShapesOf(c.arg.calls))
  }

  function ShapesOf(calls: seq<Call>): seq<Shape>
    requires AllShaped(calls)
    decreases calls, 1
  {
    if calls == [] then [] else [ShapeOf(calls[0])] + ShapesOf(calls[1..])
  }

  function Print(s: Shape): string
    decreases s, 0
  {
    match s
    case Leaf(pallet, fn) => pallet + "." + fn
    case Sudo(inner) => "[Sudo.sudo." + Print(inner) + "]"
    case Batch(pallet, fn, calls) => pallet + "." + fn + "(" + PrintAll(calls) + ")"
  }

  function PrintAll(calls: seq<Shape>): string
    decreases calls, 1
  {
    if calls == [] then ""
    else if |calls| == 1 then Print(calls[0])
    else Print(calls[0]) + "," + PrintAll(calls[1..])
  }

  /** The printer succeeds exactly on calls with a shape, and prints that shape. */
  lemma {:induction false} ComposePrintsShape(c: Call)
    ensures Compose(c).Ok? <==> Shaped(c)
    ensures Shaped(c) ==> Compose(c) == Ok(Print(ShapeOf(c)))
    decreases c, 0
  {
    if IsSudo(c.pallet, c.fn) {
      if c.arg.Single? { ComposePrintsShape(c.arg.call); }
    } else if IsBatch(c.pallet, c.fn) && c.arg.Many? {
      ComposeAllPrintsShapes(c.arg.calls);
    }
  }

  lemma {:induction false} ComposeAllPrintsShapes(calls: seq<Call>)
    ensures ComposeAll(calls).Ok? <==> AllShaped(calls)
    ensures AllShaped(calls) ==>
              Join(ComposeAll(calls).value) == PrintAll(ShapesOf(calls)) && |ShapesOf(calls)| == |calls|
    decreases calls, 1
  {
    if calls != [] {
      ComposePrintsShape(calls[0]);
      ComposeAllPrintsShapes(calls[1..]);
      if AllShaped(calls) {
        var texts, shapes := ComposeAll(calls).value, ShapesOf(calls);
        assert texts[1..] == ComposeAll(calls[1..]).value;
        assert shapes[1..] == ShapesOf(calls[1..]);
      }
    }
  }

  // ----- the parser

  predicate Delimiter(ch: char)
  {
    ch in ".[](),"
  }

  predicate Clean(name: string)
  {
    forall i :: 0 <= i < |name| ==> !Delimiter(name[i])
  }

  /** Names without delimiters, and every node the kind its name makes it. */
  ghost predicate Canonical(s: Shape)
    decreases s
  {
    match s
    case Leaf(pallet, fn) =>
      Clean(pallet) && Clean(fn) && !IsSudo(pallet, fn) && !IsBatch(pallet, fn)
    case Sudo(inner) => Canonical(inner)
    case Batch(pallet, fn, calls) =>
      Clean(pallet) && Clean(fn) && IsBatch(pallet, fn)
      && forall i :: 0 <= i < |calls| ==> Canonical(calls[i])
  }

  /** The longest prefix without a delimiter. */
  function TakeName(s: string): (r: (string, string))
    ensures |r.1| <= |s|
  {
    if s == "" || Delimiter(s[0]) then ("", s)
    else var r := TakeName(s[1..]); ([s[0]] + r.0, r.1)
  }

  const SUDO_PREFIX := "[Sudo.sudo."

  type Parsed<T> = Option<(T, string)>

  /** A sudo call ends with the closing bracket. */
  function CloseSudo(inner: Parsed<Shape>): Parsed<Shape>
  {
    match inner
    case None => None
    case Some((call, rest)) =>
      if rest != "" && rest[0] == ']' then Some((Sudo(call), rest[1..])) else None
  }

  function CloseBatch(pallet: string, fn: string, calls: Parsed<seq<Shape>>): Parsed<Shape>
  {
    match calls
    case None => None
    case Some((inner, rest)) => if IsBatch(pallet, fn) then Some((Batch(pallet, fn, inner), rest)) else None
  }

  function PlainCall(pallet: string, fn: string, rest: string): Parsed<Shape>
  {
    if IsSudo(pallet, fn) || IsBatch(pallet, fn) then None else Some((Leaf(pallet, fn), rest))
  }

  function ParseShape(s: string): (r: Parsed<Shape>)
    ensures r.Some? ==> |r.value.1| < |s|
    decreases |s|, 0
  {
    if SUDO_PREFIX <= s then CloseSudo(ParseShape(s[|SUDO_PREFIX|..]))
    else
      var (pallet, afterPallet) := TakeName(s);
      if afterPallet == "" || afterPallet[0] != '.' then None
      else
        var (fn, rest) := TakeName(afterPallet[1..]);
        if rest != "" && rest[0] == '(' then CloseBatch(pallet, fn, ParseCalls(rest[1..]))
        else PlainCall(pallet, fn, rest)
  }

  /** The calls up to and including the closing parenthesis. */
  function ParseCalls(s: string): (r: Parsed<seq<Shape>>)
    ensures r.Some? ==> |r.value.1| < |s|
    decreases |s|, 1
  {
    if s != "" && s[0] == ')' then Some(([], s[1..]))
    else
      match ParseShape(s)
      case None => None
      case Some((first, rest)) =>
        if rest == "" then None
        else if rest[0] == ')' then Some(([first], rest[1..]))
        else if rest[0] != ',' then None
        else
          match ParseCalls(rest[1..])
          case None => None
          case Some((more, after)) => if more == [] then None else Some(([first] + more, after))
  }

  function Parse(s: string): Option<Shape>
  {
    match ParseShape(s)
    case Some((shape, rest)) => if rest == "" then Some(shape) else None
    case None => None
  }

  // ----- parsing undoes printing

  /** What may follow a name: nothing, or a delimiter other than an opening parenthesis. */
  predicate Ends(rest: string)
  {
    rest == "" || rest[0] in ",)]"
  }

  lemma {:induction false} TakeCleanName(name: string, rest: string)
    requires Clean(name) && (rest == "" || Delimiter(rest[0]))
    ensures TakeName(name + rest) == (name, rest)
  {
    if name == "" {
      assert name + rest == rest;
    } else {
      assert (name + rest)[1..] == name[1..] + rest;
      TakeCleanName(name[1..], rest);
      assert [name[0]] + name[1..] == name;
    }
  }

  lemma NoSudoPrefix(pallet: string, rest: string)
    requires Clean(pallet)
    ensures !(SUDO_PREFIX <= pallet + "." + rest)
  {
    var s := pallet + "." + rest;
    assert s[0] != '[' by {
      if pallet != "" { assert s[0] == pallet[0] && !Delimiter(pallet[0]); }
    }
    assert SUDO_PREFIX[0] == '[';
  }

  /** What parsing does with the text of a sudo call. */
  lemma ParseSudoText(text: string)
    ensures ParseShape(SUDO_PREFIX + text) == CloseSudo(ParseShape(text))
  {
    assert (SUDO_PREFIX + text)[|SUDO_PREFIX|..] == text;
  }

  lemma TakeBothNames(pallet: string, fn: string, rest: string)
    requires Clean(pallet) && Clean(fn) && (rest == "" || Delimiter(rest[0]))
    ensures TakeName(pallet + "." + fn + rest) == (pallet, "." + fn + rest)
    ensures TakeName(("." + fn + rest)[1..]) == (fn, rest)
  {
    hide TakeName;
    TakeCleanName(pallet, "." + fn + rest);
    assert pallet + ("." + fn + rest) == pallet + "." + fn + rest;
    assert ("." + fn + rest)[1..] == fn + rest;
    TakeCleanName(fn, rest);
  }

  /** And with the text of any other call. */
  lemma ParseCallText(pallet: string, fn: string, rest: string)
    requires Clean(pallet) && Clean(fn) && (rest == "" || Delimiter(rest[0]))
    ensures ParseShape(pallet + "." + fn + rest) ==
            if rest != "" && rest[0] == '(' then CloseBatch(pallet, fn, ParseCalls(rest[1..]))
            else PlainCall(pallet, fn, rest)
  {
    hide TakeName, Clean, Delimiter;
    TakeBothNames(pallet, fn, rest);
    NoSudoPrefix(pallet, fn + rest);
    assert pallet + "." + (fn + rest) == pallet + "." + fn + rest;
  }

  lemma {:induction false} ParsePrinted(s: Shape, rest: string)
    requires Canonical(s) && Ends(rest)
    ensures ParseShape(Print(s) + rest) == Some((s, rest))
    decreases s, 1
  {
    hide ParseShape, ParseCalls, Clean;
    match s {
      case Sudo(inner) =>
        ParsePrinted(inner, "]" + rest);
        ParsePrintedSudo(inner, rest);
      case Leaf(pallet, fn) =>
        ParseCallText(pallet, fn, rest);
      case Batch(pallet, fn, calls) =>
        ParsePrintedCalls(calls, rest);
        ParsePrintedBatch(pallet, fn, calls, rest);
    }
  }

  lemma SudoText(inner: Shape, rest: string)
    ensures SUDO_PREFIX + (Print(inner) + ("]" + rest)) == Print(Sudo(inner)) + rest
  {
  }

  lemma BatchText(pallet: string, fn: string, calls: seq<Shape>, rest: string)
    ensures pallet + "." + fn + ("(" + (PrintAll(calls) + (")" + rest))) == Print(Batch(pallet, fn, calls)) + rest
  {
  }

  lemma ParsePrintedSudo(inner: Shape, rest: string)
    requires ParseShape(Print(inner) + ("]" + rest)) == Some((inner, "]" + rest))
    ensures ParseShape(Print(Sudo(inner)) + rest) == Some((Sudo(inner), rest))
  {
    hide ParseShape;
    ParseSudoText(Print(inner) + ("]" + rest));
    assert ("]" + rest)[1..] == rest;
    SudoText(inner, rest);
  }

  lemma ParsePrintedBatch(pallet: string, fn: string, calls: seq<Shape>, rest: string)
    requires Clean(pallet) && Clean(fn) && IsBatch(pallet, fn)
    requires ParseCalls(PrintAll(calls) + (")" + rest)) == Some((calls, rest))
    ensures ParseShape(Print(Batch(pallet, fn, calls)) + rest) == Some((Batch(pallet, fn, calls), rest))
  {
    hide ParseShape, ParseCalls, PrintAll, Clean;
    var tail := PrintAll(calls) + (")" + rest);
    ParseCallText(pallet, fn, "(" + tail);
    assert ("(" + tail)[1..] == tail;
    BatchText(pallet, fn, calls, rest);
  }

  lemma {:induction false} PrintStarts(s: Shape)
    requires Canonical(s)
    ensures Print(s) != "" && Print(s)[0] != ')'
  {
    match s {
      case Leaf(pallet, fn) =>
        if pallet != "" { assert Print(s)[0] == pallet[0]; }
      case Batch(pallet, fn, calls) =>
        if pallet != "" { assert Print(s)[0] == pallet[0]; }
      case Sudo(inner) =>
    }
  }

  lemma ParseLastCall(text: string, s: Shape, rest: string)
    requires text != "" && text[0] != ')'
    requires ParseShape(text) == Some((s, ")" + rest))
    ensures ParseCalls(text) == Some(([s], rest))
  {
    assert (")" + rest)[1..] == rest;
  }

  lemma ParseFirstOfMore(text: string, s: Shape, tail: string, calls: seq<Shape>, rest: string)
    requires text != "" && text[0] != ')'
    requires ParseShape(text) == Some((s, "," + tail))
    requires calls != [] && ParseCalls(tail) == Some((calls, rest))
    ensures ParseCalls(text) == Some(([s] + calls, rest))
  {
    assert ("," + tail)[1..] == tail;
  }

  lemma {:induction false} ParsePrintedCalls(calls: seq<Shape>, rest: string)
    requires forall i :: 0 <= i < |calls| ==> Canonical(calls[i])
    ensures ParseCalls(PrintAll(calls) + (")" + rest)) == Some((calls, rest))
    decreases calls, 0
  {
    var text := PrintAll(calls) + (")" + rest);
    if calls == [] {
      assert text == ")" + rest;
    } else {
      hide ParseShape, ParseCalls;
      var first := calls[0];
      PrintStarts(first);
      if |calls| == 1 {
        ParsePrinted(first, ")" + rest);
        ParseLastCall(text, first, rest);
        assert calls == [first];
      } else {
        var more := PrintAll(calls[1..]) + (")" + rest);
        assert text == Print(first) + ("," + more);
        ParsePrinted(first, "," + more);
        ParsePrintedCalls(calls[1..], rest);
        ParseFirstOfMore(text, first, more, calls[1..], rest);
        assert calls == [first] + calls[1..];
      }
    }
  }

  /** Round trip: parsing the printed shape gives the shape back, at any depth and width. */
  lemma ParseInvertsPrint(s: Shape)
    requires Canonical(s)
    ensures Parse(Print(s)) == Some(s)
  {
    ParsePrinted(s, "");
    assert Print(s) + "" == Print(s);
  }

  // ----- the parser accepts nothing but printed shapes

  lemma {:induction false} TakenName(s: string)
    ensures Clean(TakeName(s).0) && s == TakeName(s).0 + TakeName(s).1
  {
    if s != "" && !Delimiter(s[0]) {
      hide Delimiter;
      TakenName(s[1..]);
      var r := TakeName(s[1..]);
      assert [s[0]] + (r.0 + r.1) == [s[0]] + r.0 + r.1;
      assert s == [s[0]] + s[1..];
    }
  }

  lemma HeadTail(s: string)
    requires s != ""
    ensures s == [s[0]] + s[1..]
  {
  }

  /** The names a text starts with, when it is the text of a call other than sudo. */
  lemma SplitNames(s: string)
    requires var rest := TakeName(s).1; rest != "" && rest[0] == '.'
    ensures var (pallet, afterPallet) := TakeName(s); var (fn, after) := TakeName(afterPallet[1..]);
            Clean(pallet) && Clean(fn) && s == pallet + "." + fn + after
  {
    hide TakeName, Clean;
    var (pallet, afterPallet) := TakeName(s);
    TakenName(s);
    TakenName(afterPallet[1..]);
    HeadTail(afterPallet);
  }

  lemma {:induction false} ParsedWasPrinted(s: string)
    requires ParseShape(s).Some?
    ensures var (shape, rest) := ParseShape(s).value; Canonical(shape) && s == Print(shape) + rest
    decreases |s|, 0
  {
    var (shape, rest) := ParseShape(s).value;
    hide TakeName, Clean, ParseCalls, PrintAll;
    if SUDO_PREFIX <= s {
      var text := s[|SUDO_PREFIX|..];
      ParsedWasPrinted(text);
      var (inner, after) := ParseShape(text).value;
      HeadTail(after);
      SudoText(inner, rest);
      assert s == SUDO_PREFIX + text;
    } else {
      SplitNames(s);
      var (pallet, afterPallet) := TakeName(s);
      var (fn, after) := TakeName(afterPallet[1..]);
      if after != "" && after[0] == '(' {
        ParsedCallsWerePrinted(after[1..]);
        HeadTail(after);
        BatchText(pallet, fn, shape.calls, rest);
      }
    }
  }

  lemma {:induction false} ParsedCallsWerePrinted(s: string)
    requires ParseCalls(s).Some?
    ensures var (calls, rest) := ParseCalls(s).value;
            (forall i :: 0 <= i < |calls| ==> Canonical(calls[i])) && s == PrintAll(calls) + (")" + rest)
    decreases |s|, 1
  {
    var (calls, rest) := ParseCalls(s).value;
    HeadTail(s);
    if s[0] == ')' {
      assert s == PrintAll([]) + (")" + rest);
    } else {
      ParsedWasPrinted(s);
      var (first, after) := ParseShape(s).value;
      HeadTail(after);
      if after[0] != ')' {
        ParsedCallsWerePrinted(after[1..]);
        MoreText(first, ParseCalls(after[1..]).value.0, rest);
      }
    }
  }

  lemma MoreText(first: Shape, more: seq<Shape>, rest: string)
    requires more != []
    ensures Print(first) + ("," + (PrintAll(more) + (")" + rest))) == PrintAll([first] + more) + (")" + rest)
  {
    assert ([first] + more)[1..] == more;
  }

  /** The parser reads back exactly the printed names. */
  lemma ParseIsExact(text: string, s: Shape)
    ensures Parse(text) == Some(s) <==> Canonical(s) && Print(s) == text
  {
    if Parse(text) == Some(s) {
      ParsedWasPrinted(text);
      assert text == Print(s) + "" == Print(s);
    }
    if Canonical(s) && Print(s) == text {
      ParseInvertsPrint(s);
    }
  }

  // ----- calls that share a name

  ghost predicate CleanCall(c: Call)
    decreases c, 0
  {
    && Clean(c.pallet) && Clean(c.fn)
    && match c.arg
       case Opaque => true
       case Single(inner) => CleanCall(inner)
       case Many(calls) => CleanCalls(calls)
  }

  ghost predicate CleanCalls(calls: seq<Call>)
    decreases calls, 1
  {
    calls == [] || (CleanCall(calls[0]) && CleanCalls(calls[1..]))
  }

  lemma {:induction false} CleanShape(c: Call)
    requires CleanCall(c) && Shaped(c)
    ensures Canonical(ShapeOf(c))
    decreases c, 0
  {
    if IsSudo(c.pallet, c.fn) {
      CleanShape(c.arg.call);
    } else if IsBatch(c.pallet, c.fn) {
      CleanShapes(c.arg.calls);
    }
  }

  lemma {:induction false} CleanShapes(calls: seq<Call>)
    requires CleanCalls(calls) && AllShaped(calls)
    ensures forall i :: 0 <= i < |ShapesOf(calls)| ==> Canonical(ShapesOf(calls)[i])
    decreases calls, 1
  {
    if calls != [] {
      CleanShape(calls[0]);
      CleanShapes(calls[1..]);
    }
  }

  /** Two calls share a name exactly when their trees have the same shape and the same names. */
  lemma SameNameIffSameShape(c: Call, d: Call)
    requires CleanCall(c) && CleanCall(d)
    requires Compose(c).Ok? && Compose(d).Ok?
    ensures Shaped(c) && Shaped(d)
    ensures Compose(c) == Compose(d) <==> ShapeOf(c) == ShapeOf(d)
  {
    ComposePrintsShape(c);
    ComposePrintsShape(d);
    CleanShape(c);
    CleanShape(d);
    ParseInvertsPrint(ShapeOf(c));
    ParseInvertsPrint(ShapeOf(d));
  }

  // ----- names in terms of the names inside

  lemma {:induction false} ComposeAllAt(calls: seq<Call>)
    ensures ComposeAll(calls).Ok? <==> forall i :: 0 <= i < |calls| ==> Compose(calls[i]).Ok?
    ensures ComposeAll(calls).Ok? ==>
              forall i :: 0 <= i < |calls| ==> Ok(ComposeAll(calls).value[i]) == Compose(calls[i])
  {
    if calls != [] {
      ComposeAllAt(calls[1..]);
      assert forall i :: 1 <= i < |calls| ==> calls[1..][i - 1] == calls[i];
    }
  }

  /**
   Every call of Utility and every batch_all has a name exactly when it holds a list of calls that
   all have one, and its name then shows theirs in order.
   */
  lemma BatchNames(c: Call)
    requires c.pallet == "Utility" || c.fn == "batch_all"
    ensures Compose(c).Ok? <==> c.arg.Many? && forall i :: 0 <= i < |c.arg.calls| ==> Compose(c.arg.calls[i]).Ok?
    ensures Compose(c).Ok? ==>
              exists names: seq<string> ::
                && |names| == |c.arg.calls|
                && (forall i :: 0 <= i < |names| ==> Compose(c.arg.calls[i]) == Ok(names[i]))
                && Compose(c) == Ok(c.pallet + "." + c.fn + "(" + Join(names) + ")")
  {
    assert "Utility" != "Sudo" && "batch_all" != "sudo";
    if c.arg.Many? {
      ComposeAllAt(c.arg.calls);
      if Compose(c).Ok? {
        var names := ComposeAll(c.arg.calls).value;
        assert Compose(c) == Ok(c.pallet + "." + c.fn + "(" + Join(names) + ")");
      }
    }
  }

  /** Sudo.sudo has a name exactly when it holds a call that has one. */
  lemma SudoNames(c: Call)
    requires c.pallet == "Sudo" && c.fn == "sudo"
    ensures Compose(c).Ok? <==> c.arg.Single? && Compose(c.arg.call).Ok?
    ensures Compose(c).Ok? ==> Compose(c) == Ok("[Sudo.sudo." + Compose(c.arg.call).value + "]")
  {
  }

  /** Every other call has a name, whatever its argument. */
  lemma OtherNames(c: Call)
    requires !(c.pallet == "Sudo" && c.fn == "sudo") && c.pallet != "Utility" && c.fn != "batch_all"
    ensures Compose(c) == Ok(c.pallet + "." + c.fn)
  {
  }

  lemma {:induction false} ShapesAt(calls: seq<Call>)
    ensures AllShaped(calls) <==> forall i :: 0 <= i < |calls| ==> Shaped(calls[i])
    ensures AllShaped(calls) ==> |ShapesOf(calls)| == |calls|
    ensures AllShaped(calls) ==> forall i :: 0 <= i < |calls| ==> ShapesOf(calls)[i] == ShapeOf(calls[i])
  {
    if calls != [] {
      ShapesAt(calls[1..]);
      assert forall i :: 1 <= i < |calls| ==> calls[1..][i - 1] == calls[i];
    }
  }

  lemma {:induction false} CleanCallsAt(calls: seq<Call>)
    requires CleanCalls(calls)
    ensures forall i :: 0 <= i < |calls| ==> CleanCall(calls[i])
  {
    if calls != [] {
      CleanCallsAt(calls[1..]);
      assert forall i :: 1 <= i < |calls| ==> calls[1..][i - 1] == calls[i];
    }
  }

  /** Two batches under one name hold calls that share their names one by one, and no others share it. */
  lemma SameBatchIffSameCalls(c: Call, d: Call)
    requires c.pallet == "Utility" || c.fn == "batch_all"
    requires c.pallet == d.pallet && c.fn == d.fn
    requires CleanCall(c) && CleanCall(d) && Compose(c).Ok? && Compose(d).Ok?
    ensures c.arg.Many? && d.arg.Many?
    ensures Compose(c) == Compose(d) <==>
            && |c.arg.calls| == |d.arg.calls|
            && forall i :: 0 <= i < |c.arg.calls| ==> Compose(c.arg.calls[i]) == Compose(d.arg.calls[i])
  {
    hide Compose, ShapeOf, Shaped, CleanCalls, Join;
    BatchNames(c);
    BatchNames(d);
    var cs, ds := c.arg.calls, d.arg.calls;
    CleanCallsAt(cs);
    CleanCallsAt(ds);
    SameNameIffSameShape(c, d);
    SameShapesIff(c, d);
    forall i | 0 <= i < |cs| && i < |ds|
      ensures Shaped(cs[i]) && Shaped(ds[i])
      ensures Compose(cs[i]) == Compose(ds[i]) <==> ShapeOf(cs[i]) == ShapeOf(ds[i])
    {
      SameNameIffSameShape(cs[i], ds[i]);
    }
  }

  lemma SameShapesIff(c: Call, d: Call)
    requires c.pallet == "Utility" || c.fn == "batch_all"
    requires c.pallet == d.pallet && c.fn == d.fn && c.arg.Many? && d.arg.Many?
    requires Shaped(c) && Shaped(d)
    ensures forall i :: 0 <= i < |c.arg.calls| ==> Shaped(c.arg.calls[i])
    ensures forall i :: 0 <= i < |d.arg.calls| ==> Shaped(d.arg.calls[i])
    ensures ShapeOf(c) == ShapeOf(d) <==>
            && |c.arg.calls| == |d.arg.calls|
            && forall i :: 0 <= i < |c.arg.calls| ==> ShapeOf(c.arg.calls[i]) == ShapeOf(d.arg.calls[i])
  {
    assert "Utility" != "Sudo" && "batch_all" != "sudo";
    ShapesAt(c.arg.calls);
    ShapesAt(d.arg.calls);
  }

  /** The names inside are set off by commas. */
  lemma CommasBetween(pallet: string, fn: string, a: Call, b: Call)
    requires pallet == "Utility" || fn == "batch_all"
    requires Compose(a).Ok? && Compose(b).Ok?
    ensures Compose(Call(pallet, fn, Many([]))) == Ok(pallet + "." + fn + "(" + "" + ")")
    ensures Compose(Call(pallet, fn, Many([a]))) == Ok(pallet + "." + fn + "(" + Compose(a).value + ")")
    ensures Compose(Call(pallet, fn, Many([a, b])))
            == Ok(pallet + "." + fn + "(" + (Compose(a).value + "," + Compose(b).value) + ")")
  {
    var x, y := Compose(a).value, Compose(b).value;
    InnerNames(pallet, fn, [], []);
    InnerNames(pallet, fn, [a], [x]);
    InnerNames(pallet, fn, [a, b], [x, y]);
    assert [x, y][1..] == [y];
  }

  lemma InnerNames(pallet: string, fn: string, calls: seq<Call>, names: seq<string>)
    requires pallet == "Utility" || fn == "batch_all"
    requires |names| == |calls| && forall i :: 0 <= i < |calls| ==> Compose(calls[i]) == Ok(names[i])
    ensures Compose(Call(pallet, fn, Many(calls))) == Ok(pallet + "." + fn + "(" + Join(names) + ")")
  {
    hide Compose, Join;
    var c := Call(pallet, fn, Many(calls));
    BatchNames(c);
    var found: seq<string> :|
      && |found| == |calls|
      && (forall i :: 0 <= i < |found| ==> Compose(calls[i]) == Ok(found[i]))
      && Compose(c) == Ok(pallet + "." + fn + "(" + Join(found) + ")");
    assert forall i :: 0 <= i < |names| ==> found[i] == names[i];
    assert found == names;
  }

  /** The condition on names is needed: with a dot in a name different calls collide. */
  lemma DottedNamesCollide()
    ensures var c, d := Call("A.B", "c", Opaque), Call("A", "B.c", Opaque);
            Compose(c) == Compose(d) && ShapeOf(c) != ShapeOf(d)
  {
    assert "A.B" + "." + "c" == "A" + "." + "B.c";
    assert "A.B" != "A";
  }
}

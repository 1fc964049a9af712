/**
 * Repair of a recorded log, line by line (`fix_log` in
 * gridworld/data/iglu_dataset.py): every `block_change` line has the
 * coordinates of its tuple payload corrected by FixXyz; every other line,
 * and every block_change line whose payload cannot be read, is copied.
 *
 * The source reads the payload with `eval`; here it is read by a strict
 * parser for integer and tuple-of-integer literals, which accepts a subset
 * of what `eval` accepts and gives the same value on it.
 */
module LogRepair {
  import opened Common
  import IgluCoords

  const BlockChangeMarker := "block_change"

  /** Python's `needle in hay` on strings. */
  predicate Contains(hay: string, needle: string)
  {
    exists i :: 0 <= i <= |hay| - |needle| && OccursAt(hay, needle, i)
  }

  predicate OccursAt(hay: string, needle: string, i: int)
  {
    0 <= i <= |hay| - |needle| && hay[i..i + |needle|] == needle
  }

  // ---------------------------------------------------------------------
  // str.splitlines and "\n".join
  // ---------------------------------------------------------------------

  /** The characters str.splitlines breaks at (a "\r\n" pair counts as one break). */
  predicate IsLineBoundary(c: char)
  {
    c as int in {0x0A, 0x0B, 0x0C, 0x0D, 0x1C, 0x1D, 0x1E, 0x85, 0x2028, 0x2029}
  }

  predicate NoLineBoundary(s: string)
  {
    forall k :: 0 <= k < |s| ==> !IsLineBoundary(s[k])
  }

  /** The first line boundary at or after i, or |s|. */
  function LineEnd(s: string, i: nat): (k: nat)
    requires i <= |s|
    ensures i <= k <= |s|
    ensures forall j :: i <= j < k ==> !IsLineBoundary(s[j])
    ensures k < |s| ==> IsLineBoundary(s[k])
    decreases |s| - i
  {
    if i == |s| || IsLineBoundary(s[i]) then i else LineEnd(s, i + 1)
  }

  /** str.splitlines(): the lines without their terminators; no empty line after a final terminator. */
  function SplitLines(s: string): (lines: seq<string>)
    ensures forall k :: 0 <= k < |lines| ==> NoLineBoundary(lines[k])
    ensures s == "" <==> lines == []
    decreases |s|
  {
    if s == "" then []
    else
      var k := LineEnd(s, 0);
      if k == |s| then [s]
      else
        var next := if s[k] == '\r' && k + 1 < |s| && s[k + 1] == '\n' then k + 2 else k + 1;
        [s[..k]] + SplitLines(s[next..])
  }

  /** "\n".join(lines) */
  function JoinLines(lines: seq<string>): string
  {
    if lines == [] then "" else if |lines| == 1 then lines[0] else lines[0] + "\n" + JoinLines(lines[1..])
  }

  /**
   * Joining lines that hold no line boundary and splitting again gives the
   * lines back, unless the last line is empty (a trailing "\n" produces no
   * line of its own).
   */
  lemma {:induction false} SplitJoinLines(lines: seq<string>)
    requires forall k :: 0 <= k < |lines| ==> NoLineBoundary(lines[k])
    requires lines != [] ==> lines[|lines| - 1] != ""
    ensures SplitLines(JoinLines(lines)) == lines
  {
    if |lines| == 1 {
      var s := lines[0];
      assert LineEnd(s, 0) == |s|;
    } else if |lines| > 1 {
      var head := lines[0];
      var rest := JoinLines(lines[1..]);
      var s := head + "\n" + rest;
      assert s[|head|] == '\n';
      assert forall j :: 0 <= j < |head| ==> s[j] == head[j];
      var k := LineEnd(s, 0);
      assert k == |head|;
      assert s[..k] == head;
      assert s[k + 1..] == rest;
      SplitJoinLines(lines[1..]);
    }
  }

  // ---------------------------------------------------------------------
  // str.split(" ", 2)
  // ---------------------------------------------------------------------

  /** The first occurrence of c at or after i, or |s|. */
  function IndexFrom(s: string, c: char, i: nat): (k: nat)
    requires i <= |s|
    ensures i <= k <= |s|
    ensures forall j :: i <= j < k ==> s[j] != c
    ensures k < |s| ==> s[k] == c
    decreases |s| - i
  {
    if i == |s| || s[i] == c then i else IndexFrom(s, c, i + 1)
  }

  predicate Free(s: string, c: char)
  {
    forall k :: 0 <= k < |s| ==> s[k] != c
  }

  /** " ".join(fields) */
  function JoinSpace(fields: seq<string>): string
  {
    if fields == [] then "" else if |fields| == 1 then fields[0] else fields[0] + " " + JoinSpace(fields[1..])
  }

  lemma JoinSpaceThree(a: string, b: string, c: string)
    ensures JoinSpace([a, b, c]) == a + " " + b + " " + c
  {
    assert [a, b, c][1..] == [b, c];
    assert [b, c][1..] == [c];
    assert JoinSpace([b, c]) == b + " " + c;
    assert JoinSpace([a, b, c]) == a + " " + (b + " " + c);
  }

  /** The text before the first space, and the text after it if there is one. */
  function CutAtSpace(s: string): (r: (string, Option<string>))
    ensures Free(r.0, ' ')
    ensures r.1.None? ==> r.0 == s
    ensures r.1.Some? ==> s == r.0 + " " + r.1.value
  {
    var i := IndexFrom(s, ' ', 0);
    if i == |s| then
      assert s[..i] == s;
      (s, None)
    else
      assert s == s[..i] + " " + s[i + 1..];
      (s[..i], Some(s[i + 1..]))
  }

  /** line.split(" ", 2): split at the first two single spaces. */
  function SplitFields(line: string): (fields: seq<string>)
    ensures 1 <= |fields| <= 3
    ensures JoinSpace(fields) == line
    ensures forall k :: 0 <= k < |fields| - 1 ==> Free(fields[k], ' ')
    ensures |fields| < 3 ==> Free(fields[|fields| - 1], ' ')
  {
    var (a, more) := CutAtSpace(line);
    match more
    case None => [line]
    case Some(rest) =>
      var (b, more2) := CutAtSpace(rest);
      match more2
      case None => [a, rest]
      case Some(c) =>
        JoinSpaceThree(a, b, c);
        [a, b, c]
  }

  /** SplitFields takes apart what JoinSpace put together, when the first two fields hold no space. */
  lemma SplitFieldsOfJoin(a: string, b: string, c: string)
    requires Free(a, ' ') && Free(b, ' ')
    ensures SplitFields(a + " " + b + " " + c) == [a, b, c]
  {
    var line := a + " " + b + " " + c;
    assert line[|a|] == ' ';
    assert forall j :: 0 <= j < |a| ==> line[j] == a[j];
    var i := IndexFrom(line, ' ', 0);
    assert i == |a|;
    var rest := line[i + 1..];
    assert rest == b + " " + c;
    assert rest[|b|] == ' ';
    assert forall j :: 0 <= j < |b| ==> rest[j] == b[j];
    var j := IndexFrom(rest, ' ', 0);
    assert j == |b|;
    assert line[..i] == a && rest[..j] == b && rest[j + 1..] == c;
  }

  // ---------------------------------------------------------------------
  // Integer literals: parsing and str()
  // ---------------------------------------------------------------------

  predicate IsDigit(c: char)
  {
    '0' <= c <= '9'
  }

  predicate AllDigits(s: string)
  {
    forall k :: 0 <= k < |s| ==> IsDigit(s[k])
  }

  /** A Python decimal literal: digits, with no leading zero unless every digit is zero. */
  predicate IsDecimalLiteral(s: string)
  {
    |s| > 0 && AllDigits(s) && (s[0] == '0' ==> forall k :: 0 <= k < |s| ==> s[k] == '0')
  }

  function DigitsValue(s: string): nat
    requires AllDigits(s)
  {
    if s == "" then 0 else DigitsValue(s[..|s| - 1]) * 10 + (s[|s| - 1] as int - '0' as int)
  }

  /** Blank characters between tokens: space, tab, form feed. */
  predicate IsBlank(c: char)
  {
    c == ' ' || c == '\t' || c as int == 0x0C
  }

  function TrimLeft(s: string): (r: string)
    ensures |r| <= |s|
    ensures r != "" ==> !IsBlank(r[0])
  {
    if s != "" && IsBlank(s[0]) then TrimLeft(s[1..]) else s
  }

  function TrimRight(s: string): (r: string)
    ensures |r| <= |s|
    ensures r != "" ==> !IsBlank(r[|r| - 1])
  {
    if s != "" && IsBlank(s[|s| - 1]) then TrimRight(s[..|s| - 1]) else s
  }

  function Trim(s: string): string
  {
    TrimRight(TrimLeft(s))
  }

  /** An optionally signed decimal literal, already trimmed. */
  function ParseInt(t: string): (r: Option<int>)
  {
    if t != "" && (t[0] == '-' || t[0] == '+') then
      if IsDecimalLiteral(t[1..]) then
        Some(if t[0] == '-' then -(DigitsValue(t[1..]) as int) else DigitsValue(t[1..]) as int)
      else None
    else if IsDecimalLiteral(t) then Some(DigitsValue(t) as int)
    else None
  }

  function Digit(d: nat): (c: char)
    requires d < 10
    ensures IsDigit(c) && c as int - '0' as int == d
  {
    ('0' as int + d) as char
  }

  /** str(n) for n >= 0 */
  function ShowNat(n: nat): (s: string)
    ensures s != "" && AllDigits(s)
  {
    if n < 10 then [Digit(n)] else ShowNat(n / 10) + [Digit(n % 10)]
  }

  /** str(n) */
  function ShowInt(n: int): (s: string)
  {
    if n < 0 then "-" + ShowNat(-n) else ShowNat(n)
  }

  lemma {:induction false} ShowNatParses(n: nat)
    ensures IsDecimalLiteral(ShowNat(n)) && DigitsValue(ShowNat(n)) == n
    ensures n > 0 ==> ShowNat(n)[0] != '0'
  {
    var s := ShowNat(n);
    if n >= 10 {
      ShowNatParses(n / 10);
      assert s[..|s| - 1] == ShowNat(n / 10);
      assert s[0] == ShowNat(n / 10)[0];
    }
  }

  /** str() of an integer reads back as the same integer. */
  lemma ShowIntParses(n: int)
    ensures ParseInt(ShowInt(n)) == Some(n)
  {
    if n < 0 {
      ShowNatParses(-n);
      assert ShowInt(n)[1..] == ShowNat(-n);
    } else {
      ShowNatParses(n);
    }
  }

  // ---------------------------------------------------------------------
  // Tuple literals: parsing and str()
  // ---------------------------------------------------------------------

  /** The value of an accepted literal: an int, or a tuple of ints. */
  datatype Literal = IntLit(n: int) | TupleLit(items: seq<int>)

  /** s.split(",") */
  function SplitCommas(s: string): (parts: seq<string>)
    ensures |parts| >= 1
    decreases |s|
  {
    var i := IndexFrom(s, ',', 0);
    if i == |s| then [s] else [s[..i]] + SplitCommas(s[i + 1..])
  }

  /** Each part, trimmed, as an integer literal. */
  function ParseInts(parts: seq<string>): (r: Option<seq<int>>)
    ensures r.Some? ==> |r.value| == |parts|
  {
    if parts == [] then Some([])
    else
      match ParseInt(Trim(parts[0]))
      case None => None
      case Some(n) =>
        match ParseInts(parts[1..])
        case None => None
        case Some(ns) => Some([n] + ns)
  }

  /** A comma-separated list: one item without a comma is the item itself, otherwise a tuple (a trailing comma allowed). */
  function ParseExprList(s: string): Option<Literal>
  {
    var parts := SplitCommas(s);
    var items := if |parts| > 1 && Trim(parts[|parts| - 1]) == "" then parts[..|parts| - 1] else parts;
    match ParseInts(items)
    case None => None
    case Some(ns) => if |parts| == 1 then Some(IntLit(ns[0])) else Some(TupleLit(ns))
  }

  /** The stand-in for `eval`: None where the literal is not an int or a flat tuple of ints. */
  function ParseLiteral(field: string): Option<Literal>
  {
    var t := Trim(field);
    if |t| >= 2 && t[0] == '(' && t[|t| - 1] == ')' then
      var inner := t[1..|t| - 1];
      if Trim(inner) == "" then Some(TupleLit([])) else ParseExprList(inner)
    else if t == "" then None
    else ParseExprList(t)
  }

  /** ", " followed by each item */
  function ShowRest(ys: seq<int>): string
  {
    if ys == [] then "" else ", " + ShowInt(ys[0]) + ShowRest(ys[1..])
  }

  /** str(tuple(xs)) for a tuple of at least two ints: "(1, 2, 3)" */
  function ShowTuple(xs: seq<int>): string
    requires |xs| >= 2
  {
    "(" + ShowInt(xs[0]) + ShowRest(xs[1..]) + ")"
  }

  /** The parts SplitCommas cuts ShowRest into: each item with its leading space. */
  function RestParts(ys: seq<int>): (parts: seq<string>)
    ensures |parts| == |ys|
  {
    if ys == [] then [] else [" " + ShowInt(ys[0])] + RestParts(ys[1..])
  }

  predicate IsTupleChar(c: char)
  {
    IsDigit(c) || c == '-' || c == '(' || c == ')' || c == ',' || c == ' '
  }

  predicate TupleCharsOnly(s: string)
  {
    forall k :: 0 <= k < |s| ==> IsTupleChar(s[k])
  }

  lemma ShowIntShape(n: int)
    ensures ShowInt(n) != "" && Free(ShowInt(n), ',') && TupleCharsOnly(ShowInt(n))
    ensures !IsBlank(ShowInt(n)[0]) && !IsBlank(ShowInt(n)[|ShowInt(n)| - 1])
    ensures Free(ShowInt(n), ' ')
  {
  }

  lemma {:induction false} ShowRestShape(ys: seq<int>)
    ensures TupleCharsOnly(ShowRest(ys))
  {
    if ys != [] {
      ShowIntShape(ys[0]);
      ShowRestShape(ys[1..]);
    }
  }

  lemma SplitCommasNoComma(s: string)
    requires Free(s, ',')
    ensures SplitCommas(s) == [s]
  {
    assert IndexFrom(s, ',', 0) == |s|;
  }

  lemma SplitCommasAt(a: string, b: string)
    requires Free(a, ',')
    ensures SplitCommas(a + ("," + b)) == [a] + SplitCommas(b)
  {
    var s := a + ("," + b);
    assert s[|a|] == ',';
    assert forall j :: 0 <= j < |a| ==> s[j] == a[j];
    assert IndexFrom(s, ',', 0) == |a|;
    assert s[..|a|] == a;
    assert s[|a| + 1..] == b;
  }

  /** ShowRest of a non-empty list: a comma, then the first item with its space, then the rest. */
  lemma ShowRestCons(ys: seq<int>)
    requires ys != []
    ensures ShowRest(ys) == "," + ((" " + ShowInt(ys[0])) + ShowRest(ys[1..]))
    ensures Free(" " + ShowInt(ys[0]), ',')
  {
    ShowIntShape(ys[0]);
  }

  lemma {:induction false} SplitCommasShowRest(prefix: string, ys: seq<int>)
    requires Free(prefix, ',')
    ensures SplitCommas(prefix + ShowRest(ys)) == [prefix] + RestParts(ys)
    decreases |ys|
  {
    if ys == [] {
      assert prefix + ShowRest(ys) == prefix;
      SplitCommasNoComma(prefix);
    } else {
      var item := " " + ShowInt(ys[0]);
      ShowRestCons(ys);
      SplitCommasAt(prefix, item + ShowRest(ys[1..]));
      SplitCommasShowRest(item, ys[1..]);
    }
  }

  lemma TrimShowInt(n: int)
    ensures Trim(ShowInt(n)) == ShowInt(n)
  {
    ShowIntShape(n);
  }

  lemma TrimPaddedShowInt(n: int)
    ensures Trim(" " + ShowInt(n)) == ShowInt(n)
  {
    var t := ShowInt(n);
    ShowIntShape(n);
    assert (" " + t)[1..] == t;
    assert TrimLeft(" " + t) == t;
  }

  lemma ParseIntsCons(p: string, ps: seq<string>, n: int, ns: seq<int>)
    requires ParseInt(Trim(p)) == Some(n) && ParseInts(ps) == Some(ns)
    ensures ParseInts([p] + ps) == Some([n] + ns)
  {
    assert ([p] + ps)[0] == p && ([p] + ps)[1..] == ps;
  }

  lemma {:induction false} ParseIntsRest(ys: seq<int>)
    ensures ParseInts(RestParts(ys)) == Some(ys)
  {
    if ys != [] {
      TrimPaddedShowInt(ys[0]);
      ShowIntParses(ys[0]);
      ParseIntsRest(ys[1..]);
      ParseIntsCons(" " + ShowInt(ys[0]), RestParts(ys[1..]), ys[0], ys[1..]);
      assert [ys[0]] + ys[1..] == ys;
    }
  }

  /** Trimming keeps a string non-empty when its first character is not blank. */
  lemma {:induction false} TrimRightKeepsFirst(s: string)
    requires s != "" && !IsBlank(s[0])
    ensures TrimRight(s) != ""
    decreases |s|
  {
    if |s| > 1 && IsBlank(s[|s| - 1]) {
      TrimRightKeepsFirst(s[..|s| - 1]);
    }
  }

  lemma ParseExprListTuple(s: string, ns: seq<int>)
    requires |SplitCommas(s)| >= 2
    requires Trim(SplitCommas(s)[|SplitCommas(s)| - 1]) != ""
    requires ParseInts(SplitCommas(s)) == Some(ns)
    ensures ParseExprList(s) == Some(TupleLit(ns))
  {
  }

  /** How SplitCommas cuts the items of a printed tuple. */
  lemma ShowItemsSplit(xs: seq<int>)
    requires |xs| >= 2
    ensures SplitCommas(ShowInt(xs[0]) + ShowRest(xs[1..])) == [ShowInt(xs[0])] + RestParts(xs[1..])
    ensures Trim(RestParts(xs[1..])[|xs| - 2]) != ""
  {
    ShowIntShape(xs[0]);
    SplitCommasShowRest(ShowInt(xs[0]), xs[1..]);
    LastRestPart(xs[1..]);
    TrimPaddedShowInt(xs[|xs| - 1]);
    ShowIntShape(xs[|xs| - 1]);
  }

  /** Each cut item reads back as its integer. */
  lemma ShowItemsParseInts(xs: seq<int>)
    requires |xs| >= 2
    ensures ParseInts([ShowInt(xs[0])] + RestParts(xs[1..])) == Some(xs)
  {
    TrimShowInt(xs[0]);
    ShowIntParses(xs[0]);
    ParseIntsRest(xs[1..]);
    ParseIntsCons(ShowInt(xs[0]), RestParts(xs[1..]), xs[0], xs[1..]);
    assert [xs[0]] + xs[1..] == xs;
  }

  /** The items of a printed tuple, without the parentheses, read back as the tuple. */
  lemma ShowItemsParse(xs: seq<int>)
    requires |xs| >= 2
    ensures ParseExprList(ShowInt(xs[0]) + ShowRest(xs[1..])) == Some(TupleLit(xs))
  {
    var s := ShowInt(xs[0]) + ShowRest(xs[1..]);
    var parts := [ShowInt(xs[0])] + RestParts(xs[1..]);
    ShowItemsSplit(xs);
    ShowItemsParseInts(xs);
    assert parts[|parts| - 1] == RestParts(xs[1..])[|xs| - 2];
    ParseExprListTuple(s, xs);
  }

  /** A string whose first and last characters are not blank is its own trim. */
  lemma TrimUnpadded(t: string)
    requires t != "" && !IsBlank(t[0]) && !IsBlank(t[|t| - 1])
    ensures Trim(t) == t
  {
    assert TrimLeft(t) == t;
  }

  /** A parenthesised list whose content starts with a non-blank character is read as a list. */
  lemma ParseParenthesised(head: string, tail: string)
    requires head != "" && !IsBlank(head[0])
    ensures ParseLiteral("(" + head + tail + ")") == ParseExprList(head + tail)
  {
    var inner := head + tail;
    var t := "(" + head + tail + ")";
    TrimUnpadded(t);
    assert t[1..|t| - 1] == inner;
    assert inner[0] == head[0];
    assert TrimLeft(inner) == inner;
    TrimRightKeepsFirst(inner);
  }

  /** The tuple the repaired line carries reads back as the same tuple. */
  lemma ShowTupleParses(xs: seq<int>)
    requires |xs| >= 2
    ensures ParseLiteral(ShowTuple(xs)) == Some(TupleLit(xs))
  {
    ShowIntShape(xs[0]);
    ParseParenthesised(ShowInt(xs[0]), ShowRest(xs[1..]));
    ShowItemsParse(xs);
  }

  lemma {:induction false} LastRestPart(ys: seq<int>)
    requires ys != []
    ensures RestParts(ys)[|ys| - 1] == " " + ShowInt(ys[|ys| - 1])
    decreases |ys|
  {
    if |ys| > 1 {
      LastRestPart(ys[1..]);
    }
  }

  lemma ShowTupleShape(xs: seq<int>)
    requires |xs| >= 2
    ensures TupleCharsOnly(ShowTuple(xs)) && ShowTuple(xs) != ""
  {
    ShowIntShape(xs[0]);
    ShowRestShape(xs[1..]);
  }

  // ---------------------------------------------------------------------
  // One line, and the whole log
  // ---------------------------------------------------------------------

  /** The tuple written back: fixed coordinates, then info[3] and info[4]. */
  function FixedPayload(info: seq<int>): (out: seq<int>)
    requires |info| >= 5
    ensures |out| == 5 && out[3] == info[3] && out[4] == info[4]
    ensures IgluCoords.FixXyz(info[0], info[1], info[2]) == IgluCoords.Coord(out[0], out[1], out[2])
  {
    var c := IgluCoords.FixXyz(info[0], info[1], info[2]);
    [c.x, c.y, c.z, info[3], info[4]]
  }

  /**
   * The body of fix_log's loop for one line.  Reading the payload happens
   * inside `try`, so a missing third field or an unreadable payload keeps
   * the line; indexing the value read happens outside it, so a payload
   * that is an int or a tuple of fewer than five items raises.
   */
  function FixLine(line: string): (r: Result<string>)
    ensures !Contains(line, BlockChangeMarker) ==> r == Ok(line)
    ensures |SplitFields(line)| < 3 ==> r == Ok(line)
    ensures |SplitFields(line)| == 3 && ParseLiteral(SplitFields(line)[2]).None? ==> r == Ok(line)
  {
    if !Contains(line, BlockChangeMarker) then Ok(line)
    else
      var fields := SplitFields(line);
      if |fields| < 3 then Ok(line)
      else
        match ParseLiteral(fields[2])
        case None => Ok(line)
        case Some(IntLit(_)) => Err(TypeError)
        case Some(TupleLit(info)) =>
          if |info| < 5 then Err(IndexError)
          else Ok(JoinSpace([fields[0], fields[1], ShowTuple(FixedPayload(info))]))
  }

  /** The line raises exactly when its payload reads as an int, or as a tuple of fewer than five items. */
  lemma FixLineFailsIff(line: string)
    ensures FixLine(line).Err? <==>
              Contains(line, BlockChangeMarker) && |SplitFields(line)| == 3 &&
              match ParseLiteral(SplitFields(line)[2])
              case None => false
              case Some(IntLit(_)) => true
              case Some(TupleLit(info)) => |info| < 5
    ensures FixLine(line).Err? ==> FixLine(line).error == (if ParseLiteral(SplitFields(line)[2]).value.IntLit? then TypeError else IndexError)
  {
  }

  /**
   * A block_change line with a readable five-item payload keeps its first
   * two fields, and its third field reads back as the payload with its
   * coordinates fixed.
   */
  lemma FixLineRewritesPayload(line: string, info: seq<int>)
    requires Contains(line, BlockChangeMarker)
    requires |SplitFields(line)| == 3 && ParseLiteral(SplitFields(line)[2]) == Some(TupleLit(info))
    requires |info| >= 5
    ensures FixLine(line).Ok?
    ensures var f := SplitFields(FixLine(line).value);
            |f| == 3 && f[..2] == SplitFields(line)[..2] &&
            ParseLiteral(f[2]) == Some(TupleLit(FixedPayload(info)))
  {
    var f := SplitFields(line);
    var payload := ShowTuple(FixedPayload(info));
    JoinSpaceThree(f[0], f[1], payload);
    assert FixLine(line) == Ok(f[0] + " " + f[1] + " " + payload);
    SplitFieldsOfJoin(f[0], f[1], payload);
    ShowTupleParses(FixedPayload(info));
  }

  /** Replacing the third field by a printed tuple adds no line boundary and leaves the line non-empty. */
  lemma ReplacedFieldShape(a: string, b: string, c: string, payload: string)
    requires NoLineBoundary(a + " " + b + " " + c)
    requires TupleCharsOnly(payload)
    ensures NoLineBoundary(a + " " + b + " " + payload)
    ensures a + " " + b + " " + payload != ""
  {
    var line := a + " " + b + " " + c;
    assert forall j :: 0 <= j < |a| ==> a[j] == line[j];
    assert forall j :: 0 <= j < |b| ==> b[j] == line[|a| + 1 + j];
  }

  /** A repaired line holds no line boundary, and is empty only if the line was. */
  lemma FixLineShape(line: string)
    requires NoLineBoundary(line) && FixLine(line).Ok?
    ensures NoLineBoundary(FixLine(line).value)
    ensures FixLine(line).value == "" <==> line == ""
  {
    var f := SplitFields(line);
    if Contains(line, BlockChangeMarker) && |f| == 3 && ParseLiteral(f[2]).Some? && ParseLiteral(f[2]).value.TupleLit? {
      var info := ParseLiteral(f[2]).value.items;
      var payload := ShowTuple(FixedPayload(info));
      ShowTupleShape(FixedPayload(info));
      JoinSpaceThree(f[0], f[1], f[2]);
      JoinSpaceThree(f[0], f[1], payload);
      ReplacedFieldShape(f[0], f[1], f[2], payload);
      assert f[0] + " " + f[1] + " " + f[2] != "";
    }
  }

  /** fix_log's loop as a function: the repaired lines, or the first exception. */
  function FixAll(lines: seq<string>): Result<seq<string>>
  {
    TryMap(FixLine, lines)
  }

  /** fix_log */
  method FixLog(log: string) returns (r: Result<string>)
    ensures r.Ok? <==> FixAll(SplitLines(log)).Ok?
    ensures r.Ok? ==> r.value == JoinLines(FixAll(SplitLines(log)).value)
    ensures r.Err? ==> FixAll(SplitLines(log)) == Err(r.error)
  {
    var input := SplitLines(log);
    var lines: seq<string> := [];
    var i := 0;
    while i < |input|
      invariant 0 <= i <= |input|
      invariant FixAll(input[..i]) == Ok(lines)
    {
      assert input[..i + 1][..i] == input[..i];
      var fixed := FixLine(input[i]);
      if fixed.Err? {
        TryMapErrPropagates(FixLine, input, i + 1);
        return Err(fixed.error);
      }
      lines := lines + [fixed.value];
      i := i + 1;
    }
    assert input[..i] == input;
    r := Ok(JoinLines(lines));
  }

  /**
   * The repaired log has as many lines as the original (unless the
   * original ends in an empty line, which "\n".join cannot reproduce);
   * a line without `block_change` comes out verbatim in its place.
   */
  lemma FixLogLines(log: string)
    requires FixAll(SplitLines(log)).Ok?
    requires SplitLines(log) != [] ==> SplitLines(log)[|SplitLines(log)| - 1] != ""
    ensures SplitLines(JoinLines(FixAll(SplitLines(log)).value)) == FixAll(SplitLines(log)).value
    ensures |FixAll(SplitLines(log)).value| == |SplitLines(log)|
    ensures forall k :: 0 <= k < |SplitLines(log)| && !Contains(SplitLines(log)[k], BlockChangeMarker) ==>
              FixAll(SplitLines(log)).value[k] == SplitLines(log)[k]
  {
    var input := SplitLines(log);
    TryMapElements(FixLine, input);
    var out := FixAll(input).value;
    forall k | 0 <= k < |input|
      ensures NoLineBoundary(out[k]) && (out[k] == "" <==> input[k] == "")
    {
      FixLineShape(input[k]);
    }
    SplitJoinLines(out);
  }
}

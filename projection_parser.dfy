/**
 * Parsing of a projection expression: a comma-separated list of attribute
 * paths such as ` a.b[2].y , #n `.
 *
 *   expression := path (',' path)*
 *   path       := name operator*
 *   operator   := '.' name | '[' digit+ ']'
 *   name       := namechar+ | '#' namechar+      (an alias, looked up in the names table)
 *
 * Whitespace around each comma-separated path is ignored. An empty
 * expression, an empty path (a comma with nothing before or after it, or two
 * commas in a row), an unknown alias and any malformed path are errors.
 */
module ProjectionParser {
  import opened ParsedExpressions
  import opened Wrappers

  datatype ParseError =
    | EmptyExpression
    | EmptyPath
    | MissingName
    | UnknownAlias(alias: string)
    | BadIndex
    | UnexpectedCharacter(c: char)

  /** The table of `#alias` substitutions supplied with the request. */
  type Names = map<string, string>

  predicate IsWhitespace(c: char) {
    c == ' ' || c == '\t' || c == '\n' || c == '\r'
  }

  predicate IsDigit(c: char) {
    '0' <= c <= '9'
  }

  predicate IsNameChar(c: char) {
    'a' <= c <= 'z' || 'A' <= c <= 'Z' || IsDigit(c) || c == '_'
  }

  /** A literal attribute name as it may appear unquoted in an expression. */
  predicate IsName(s: string) {
    |s| > 0 && forall c <- s :: IsNameChar(c)
  }

  // ---------------------------------------------------------------------------
  // Splitting at commas

  function Split(s: string, sep: char): (r: seq<string>)
    ensures |r| >= 1
    ensures forall piece <- r :: sep !in piece
    decreases |s|
  {
    if s == [] then [[]]
    else
      var rest := Split(s[1..], sep);
      if s[0] == sep then [[]] + rest
      else [[s[0]] + rest[0]] + rest[1..]
  }

  function Join(pieces: seq<string>, sep: char): string
    decreases |pieces|
  {
    if pieces == [] then []
    else if |pieces| == 1 then pieces[0]
    else pieces[0] + [sep] + Join(pieces[1..], sep)
  }

  /** Splitting a word without the separator glued to the front of `t` extends the first piece of `t`. */
  lemma {:induction false} SplitPrefix(w: string, t: string, sep: char)
    requires sep !in w
    ensures Split(w + t, sep) == [w + Split(t, sep)[0]] + Split(t, sep)[1..]
    decreases |w|
  {
    if w != [] {
      assert (w + t)[0] == w[0] && w[0] in w;
      assert (w + t)[1..] == w[1..] + t;
      SplitPrefix(w[1..], t, sep);
      var r := Split(w[1..] + t, sep);
      assert Split(w + t, sep) == [[w[0]] + r[0]] + r[1..];
      assert [w[0]] + (w[1..] + Split(t, sep)[0]) == w + Split(t, sep)[0];
    } else {
      assert w + t == t;
      assert w + Split(t, sep)[0] == Split(t, sep)[0];
      assert Split(t, sep) == [Split(t, sep)[0]] + Split(t, sep)[1..];
    }
  }

  /** Joining pieces that contain no separator and splitting again gives the pieces back. */
  lemma {:induction false} SplitJoin(pieces: seq<string>, sep: char)
    requires |pieces| >= 1
    requires forall piece <- pieces :: sep !in piece
    ensures Split(Join(pieces, sep), sep) == pieces
    decreases |pieces|
  {
    if |pieces| == 1 {
      SplitPrefix(pieces[0], [], sep);
      assert pieces[0] + [] == pieces[0];
    } else {
      var rest := Join(pieces[1..], sep);
      SplitJoin(pieces[1..], sep);
      assert pieces[0] + [sep] + rest == pieces[0] + ([sep] + rest);
      SplitPrefix(pieces[0], [sep] + rest, sep);
      assert ([sep] + rest)[1..] == rest;
      assert Split([sep] + rest, sep) == [[]] + pieces[1..];
      assert pieces[0] + [] == pieces[0];
    }
  }

  /** Splitting and joining again gives the original string back. */
  lemma {:induction false} JoinSplit(s: string, sep: char)
    ensures Join(Split(s, sep), sep) == s
    decreases |s|
  {
    if s != [] {
      var rest := Split(s[1..], sep);
      JoinSplit(s[1..], sep);
      if s[0] == sep {
        assert s == [sep] + s[1..];
      } else if |rest| == 1 {
        assert s == [s[0]] + rest[0];
      } else {
        assert rest == [rest[0]] + rest[1..];
        assert Join(rest, sep) == rest[0] + [sep] + Join(rest[1..], sep);
        assert s == [s[0]] + s[1..];
        assert [s[0]] + rest[0] + [sep] + Join(rest[1..], sep) == [s[0]] + (rest[0] + [sep] + Join(rest[1..], sep));
      }
    }
  }

  // ---------------------------------------------------------------------------
  // Trimming whitespace

  function TrimLeft(s: string): (r: string)
    ensures r == [] || !IsWhitespace(r[0])
    ensures |r| <= |s| && r == s[|s| - |r|..]
    ensures forall i :: 0 <= i < |s| - |r| ==> IsWhitespace(s[i])
    decreases |s|
  {
    if s != [] && IsWhitespace(s[0]) then TrimLeft(s[1..]) else s
  }

  function TrimRight(s: string): (r: string)
    ensures r == [] || !IsWhitespace(r[|r| - 1])
    ensures |r| <= |s| && r == s[..|r|]
    ensures forall i :: |r| <= i < |s| ==> IsWhitespace(s[i])
    decreases |s|
  {
    if s != [] && IsWhitespace(s[|s| - 1]) then TrimRight(s[..|s| - 1]) else s
  }

  /** Removes the whitespace at both ends. */
  function Trim(s: string): string {
    TrimRight(TrimLeft(s))
  }

  /** Trim leaves a string without whitespace as it is. */
  lemma TrimNoWhitespace(s: string)
    requires forall c <- s :: !IsWhitespace(c)
    ensures Trim(s) == s
  {
  }

  /** Only a string made of whitespace trims to nothing. */
  lemma TrimEmpty(s: string)
    ensures Trim(s) == [] <==> forall c <- s :: IsWhitespace(c)
  {
    var l := TrimLeft(s);
    if Trim(s) == [] {
      assert |l| == 0;
    } else {
      var r := TrimRight(l);
      assert r[0] == l[0] == s[|s| - |l|];
      assert s[|s| - |l|] in s;
    }
  }

  lemma {:induction false} TrimLeftAppend(s: string, t: string)
    ensures TrimLeft(s + t) == if TrimLeft(s) == [] then TrimLeft(t) else TrimLeft(s) + t
    decreases |s|
  {
    if s == [] {
      assert s + t == t;
    } else if IsWhitespace(s[0]) {
      assert (s + t)[1..] == s[1..] + t;
      TrimLeftAppend(s[1..], t);
    }
  }

  lemma {:induction false} TrimRightPrepend(s: string, t: string)
    requires TrimRight(s) != []
    ensures TrimRight(t + s) == t + TrimRight(s)
    decreases |s|
  {
    assert s != [];
    assert (t + s)[|t + s| - 1] == s[|s| - 1];
    if IsWhitespace(s[|s| - 1]) {
      assert (t + s)[..|t + s| - 1] == t + s[..|s| - 1];
      TrimRightPrepend(s[..|s| - 1], t);
    }
  }

  lemma {:induction false} TrimRightWhitespace(s: string, w: string)
    requires forall c <- w :: IsWhitespace(c)
    ensures TrimRight(s + w) == TrimRight(s)
    decreases |w|
  {
    if w == [] {
      assert s + w == s;
    } else {
      assert (s + w)[..|s + w| - 1] == s + w[..|w| - 1];
      assert w[|w| - 1] in w;
      TrimRightWhitespace(s, w[..|w| - 1]);
    }
  }

  lemma {:induction false} TrimLeftWhitespace(w: string)
    requires forall c <- w :: IsWhitespace(c)
    ensures TrimLeft(w) == []
    decreases |w|
  {
    if w != [] {
      assert w[0] in w;
      TrimLeftWhitespace(w[1..]);
    }
  }

  /** Whitespace added around a path does not change what it trims to. */
  lemma TrimPadding(left: string, s: string, right: string)
    requires forall c <- left :: IsWhitespace(c)
    requires forall c <- right :: IsWhitespace(c)
    ensures Trim(left + s + right) == Trim(s)
  {
    var sr := s + right;
    assert left + s + right == left + sr;
    TrimLeftWhitespace(left);
    TrimLeftAppend(left, sr);
    assert TrimLeft(left + s + right) == TrimLeft(sr);
    TrimLeftAppend(s, right);
    if TrimLeft(s) == [] {
      TrimLeftWhitespace(right);
      assert TrimLeft(sr) == [];
    } else {
      TrimRightWhitespace(TrimLeft(s), right);
    }
  }

  // ---------------------------------------------------------------------------
  // Names and indexes

  /** The length of the run of name characters at the start of `s`. */
  function NameLength(s: string): (n: nat)
    ensures n <= |s|
    ensures forall i :: 0 <= i < n ==> IsNameChar(s[i])
    ensures n < |s| ==> !IsNameChar(s[n])
    decreases |s|
  {
    if s != [] && IsNameChar(s[0]) then 1 + NameLength(s[1..]) else 0
  }

  /** The length of the run of digits at the start of `s`. */
  function DigitLength(s: string): (n: nat)
    ensures n <= |s|
    ensures forall i :: 0 <= i < n ==> IsDigit(s[i])
    ensures n < |s| ==> !IsDigit(s[n])
    decreases |s|
  {
    if s != [] && IsDigit(s[0]) then 1 + DigitLength(s[1..]) else 0
  }

  function DigitsToNat(s: string): nat
    requires forall c <- s :: IsDigit(c)
    decreases |s|
  {
    if s == [] then 0
    else
      var last := s[|s| - 1];
      assert last in s && IsDigit(last);
      assert last as int - '0' as int >= 0;
      10 * DigitsToNat(s[..|s| - 1]) + (last as int - '0' as int)
  }

  function NatToDigits(n: nat): (r: string)
    ensures |r| >= 1
    ensures forall c <- r :: IsDigit(c)
  {
    var last := [('0' as int + n % 10) as char];
    if n < 10 then last else NatToDigits(n / 10) + last
  }

  lemma {:induction false} DigitsRoundTrip(n: nat)
    ensures DigitsToNat(NatToDigits(n)) == n
  {
    var s := NatToDigits(n);
    if n >= 10 {
      DigitsRoundTrip(n / 10);
      assert s[..|s| - 1] == NatToDigits(n / 10);
    }
  }

  /**
   * Reads a name at the start of `s`: a run of name characters, or `#` and a
   * run of name characters that the names table replaces. Returns the name
   * and the input after it.
   */
  function ParseName(s: string, names: Names): (r: Result<(string, string), ParseError>)
    ensures r.Ok? ==> |r.value.1| < |s| && r.value.1 == s[|s| - |r.value.1|..]
  {
    if s != [] && s[0] == '#' then
      var n := NameLength(s[1..]);
      var alias := s[..n + 1];
      if n == 0 then Err(MissingName)
      else if alias in names then Ok((names[alias], s[n + 1..]))
      else Err(UnknownAlias(alias))
    else
      var n := NameLength(s);
      if n == 0 then Err(MissingName) else Ok((s[..n], s[n..]))
  }

  /** Reads the dereference operators that follow a path's root, up to the end of `s`. */
  function ParseOperators(s: string, names: Names): Result<seq<Operator>, ParseError>
    decreases |s|
  {
    if s == [] then Ok([])
    else if s[0] == '.' then
      match ParseName(s[1..], names)
      case Err(e) => Err(e)
      case Ok((name, rest)) =>
        match ParseOperators(rest, names)
        case Err(e) => Err(e)
        case Ok(ops) => Ok([Dot(name)] + ops)
    else if s[0] == '[' then
      var d := DigitLength(s[1..]);
      if d == 0 || d + 1 == |s| || s[d + 1] != ']' then Err(BadIndex)
      else
        match ParseOperators(s[d + 2..], names)
        case Err(e) => Err(e)
        case Ok(ops) => Ok([Index(DigitsToNat(s[1..d + 1]))] + ops)
    else Err(UnexpectedCharacter(s[0]))
  }

  /** Parses one path, already trimmed. */
  function ParsePath(s: string, names: Names): Result<PathValue, ParseError> {
    match ParseName(s, names)
    case Err(e) => Err(e)
    case Ok((root, rest)) =>
      match ParseOperators(rest, names)
      case Err(e) => Err(e)
      case Ok(ops) => Ok(PathValue(root, ops))
  }

  /** Parses each comma-separated segment after trimming it; the first error wins. */
  function ParseSegments(segments: seq<string>, names: Names): (r: Result<seq<PathValue>, ParseError>)
    ensures r.Ok? ==> |r.value| == |segments|
    decreases |segments|
  {
    if segments == [] then Ok([])
    else
      var s := Trim(segments[0]);
      if s == [] then Err(EmptyPath)
      else
        match ParsePath(s, names)
        case Err(e) => Err(e)
        case Ok(p) =>
          match ParseSegments(segments[1..], names)
          case Err(e) => Err(e)
          case Ok(ps) => Ok([p] + ps)
  }

  /** Parses a whole projection expression into its paths, in the order written. */
  function ParseExpression(expr: string, names: Names): Result<seq<PathValue>, ParseError> {
    if Trim(expr) == [] then Err(EmptyExpression)
    else ParseSegments(Split(expr, ','), names)
  }

  // ---------------------------------------------------------------------------
  // Rendering: the inverse of parsing

  function RenderOperator(op: Operator): string {
    match op
    case Dot(n) => "." + n
    case Index(i) => "[" + NatToDigits(i) + "]"
  }

  function RenderOperators(ops: seq<Operator>): string
    decreases |ops|
  {
    if ops == [] then [] else RenderOperator(ops[0]) + RenderOperators(ops[1..])
  }

  function RenderPath(p: PathValue): string {
    p.root + RenderOperators(p.operators)
  }

  function RenderPaths(ps: seq<PathValue>): (r: seq<string>)
    ensures |r| == |ps|
    ensures forall i :: 0 <= i < |ps| ==> r[i] == RenderPath(ps[i])
    decreases |ps|
  {
    if ps == [] then [] else [RenderPath(ps[0])] + RenderPaths(ps[1..])
  }

  /** The expression that requests `ps`, written without aliases or whitespace. */
  function RenderExpression(ps: seq<PathValue>): string {
    Join(RenderPaths(ps), ',')
  }

  /** A path every name of which can be written without an alias. */
  predicate PlainPath(p: PathValue) {
    IsName(p.root) && forall op <- p.operators :: op.Dot? ==> IsName(op.name)
  }

  predicate IsPathChar(c: char) {
    IsNameChar(c) || c == '.' || c == '[' || c == ']'
  }

  lemma {:induction false} RenderOperatorsChars(ops: seq<Operator>)
    requires forall op <- ops :: op.Dot? ==> IsName(op.name)
    ensures forall c <- RenderOperators(ops) :: IsPathChar(c)
    ensures RenderOperators(ops) == [] || RenderOperators(ops)[0] in ".["
    decreases |ops|
  {
    if ops != [] {
      RenderOperatorsChars(ops[1..]);
    }
  }

  /** Reading a name stops exactly where the name ends and a non-name character begins. */
  lemma ParsePlainName(name: string, rest: string, names: Names)
    requires IsName(name)
    requires rest == [] || !IsNameChar(rest[0])
    ensures ParseName(name + rest, names) == Ok((name, rest))
  {
    var s := name + rest;
    assert s[0] == name[0];
    assert forall i :: 0 <= i < |name| ==> s[i] == name[i] && IsNameChar(name[i]);
    NameLengthOfName(s, |name|);
    assert s[..|name|] == name && s[|name|..] == rest;
  }

  lemma {:induction false} NameLengthOfName(s: string, n: nat)
    requires n <= |s|
    requires forall i :: 0 <= i < n ==> IsNameChar(s[i])
    requires n < |s| ==> !IsNameChar(s[n])
    ensures NameLength(s) == n
    decreases n
  {
    if n > 0 {
      NameLengthOfName(s[1..], n - 1);
    }
  }

  lemma {:induction false} DigitLengthOfDigits(s: string, n: nat)
    requires n <= |s|
    requires forall i :: 0 <= i < n ==> IsDigit(s[i])
    requires n < |s| ==> !IsDigit(s[n])
    ensures DigitLength(s) == n
    decreases n
  {
    if n > 0 {
      DigitLengthOfDigits(s[1..], n - 1);
    }
  }

  /** One rendered operator in front of more input is read back, and reading goes on after it. */
  lemma OperatorRoundTrip(op: Operator, rest: string, names: Names)
    requires op.Dot? ==> IsName(op.name)
    requires rest == [] || rest[0] in ".["
    ensures ParseOperators(RenderOperator(op) + rest, names) ==
              match ParseOperators(rest, names)
              case Err(e) => Err(e)
              case Ok(ops) => Ok([op] + ops)
  {
    match op
    case Dot(n) =>
      var s := RenderOperator(op) + rest;
      assert s[0] == '.' && s[1..] == n + rest;
      ParsePlainName(n, rest, names);
    case Index(i) =>
      IndexRoundTrip(i, rest, names);
  }

  /** An index written in brackets is read back, and reading goes on right after the `]`. */
  lemma IndexRoundTrip(i: nat, rest: string, names: Names)
    ensures ParseOperators("[" + NatToDigits(i) + "]" + rest, names) ==
              match ParseOperators(rest, names)
              case Err(e) => Err(e)
              case Ok(ops) => Ok([Index(i)] + ops)
  {
    var digits := NatToDigits(i);
    var s := "[" + digits + "]" + rest;
    var d := |digits|;
    BracketedDigits(digits, rest);
    assert s[0] == '[';
    DigitsRoundTrip(i);
  }

  /** The digits between brackets are scanned up to the `]`, and what follows it is left over. */
  lemma BracketedDigits(digits: string, rest: string)
    requires |digits| >= 1 && forall c <- digits :: IsDigit(c)
    ensures var s := "[" + digits + "]" + rest;
            var d := |digits|;
            DigitLength(s[1..]) == d && d + 1 < |s| && s[d + 1] == ']' &&
            s[1..d + 1] == digits && s[d + 2..] == rest
  {
    var s := "[" + digits + "]" + rest;
    var d := |digits|;
    assert s[1..] == digits + "]" + rest;
    forall k | 0 <= k < d
      ensures IsDigit(s[1..][k])
    {
      assert s[1..][k] == digits[k] && digits[k] in digits;
    }
    assert s[1..][d] == ']';
    DigitLengthOfDigits(s[1..], d);
    assert s[1..d + 1] == digits;
    assert s[d + 2..] == rest;
  }

  /** Rendered operators parse back to themselves. */
  lemma {:induction false} OperatorsRoundTrip(ops: seq<Operator>, names: Names)
    requires forall op <- ops :: op.Dot? ==> IsName(op.name)
    ensures ParseOperators(RenderOperators(ops), names) == Ok(ops)
    decreases |ops|
  {
    if ops != [] {
      NamedTail(ops);
      RenderOperatorsChars(ops[1..]);
      OperatorsRoundTrip(ops[1..], names);
      assert ops[0] in ops;
      OperatorRoundTrip(ops[0], RenderOperators(ops[1..]), names);
      assert RenderOperators(ops) == RenderOperator(ops[0]) + RenderOperators(ops[1..]);
      assert [ops[0]] + ops[1..] == ops;
    }
  }

  lemma NamedTail(ops: seq<Operator>)
    requires ops != [] && forall op <- ops :: op.Dot? ==> IsName(op.name)
    ensures forall op <- ops[1..] :: op.Dot? ==> IsName(op.name)
  {
    assert forall op <- ops[1..] :: op in ops;
  }

  /** A rendered path parses back to itself. */
  lemma PathRoundTrip(p: PathValue, names: Names)
    requires PlainPath(p)
    ensures ParsePath(RenderPath(p), names) == Ok(p)
    ensures forall c <- RenderPath(p) :: IsPathChar(c)
    ensures RenderPath(p) != []
  {
    RenderOperatorsChars(p.operators);
    ParsePlainName(p.root, RenderOperators(p.operators), names);
    OperatorsRoundTrip(p.operators, names);
  }

  /** A list of segments parses when its first segment and the rest do. */
  lemma SegmentsCons(segments: seq<string>, names: Names, p: PathValue, ps: seq<PathValue>)
    requires segments != [] && Trim(segments[0]) != []
    requires ParsePath(Trim(segments[0]), names) == Ok(p)
    requires ParseSegments(segments[1..], names) == Ok(ps)
    ensures ParseSegments(segments, names) == Ok([p] + ps)
  {
  }

  /** A rendered path is its own trimmed segment and parses back to itself. */
  lemma SegmentRoundTrip(p: PathValue, names: Names)
    requires PlainPath(p)
    ensures Trim(RenderPath(p)) == RenderPath(p) != []
    ensures ParsePath(RenderPath(p), names) == Ok(p)
  {
    PathRoundTrip(p, names);
    TrimNoWhitespace(RenderPath(p));
  }

  lemma PlainTail(ps: seq<PathValue>)
    requires ps != [] && forall p <- ps :: PlainPath(p)
    ensures forall p <- ps[1..] :: PlainPath(p)
  {
    assert forall p <- ps[1..] :: p in ps;
  }

  lemma {:induction false} SegmentsRoundTrip(ps: seq<PathValue>, names: Names)
    requires forall p <- ps :: PlainPath(p)
    ensures ParseSegments(RenderPaths(ps), names) == Ok(ps)
    decreases |ps|
  {
    if ps != [] {
      var r := RenderPaths(ps);
      assert r[0] == RenderPath(ps[0]) && r[1..] == RenderPaths(ps[1..]);
      assert ps[0] in ps;
      SegmentRoundTrip(ps[0], names);
      PlainTail(ps);
      SegmentsRoundTrip(ps[1..], names);
      SegmentsCons(r, names, ps[0], ps[1..]);
      assert [ps[0]] + ps[1..] == ps;
    }
  }

  /**
   * Writing a non-empty list of plain paths out as an expression and parsing
   * it again gives the same paths, in the same order.
   */
  lemma ExpressionRoundTrip(ps: seq<PathValue>, names: Names)
    requires |ps| >= 1
    requires forall p <- ps :: PlainPath(p)
    ensures ParseExpression(RenderExpression(ps), names) == Ok(ps)
  {
    var r := RenderPaths(ps);
    RenderedWithoutCommas(ps, names);
    SplitJoin(r, ',');
    SegmentsRoundTrip(ps, names);
    RenderedNotBlank(ps, names);
  }

  /** No rendered path contains a comma. */
  lemma RenderedWithoutCommas(ps: seq<PathValue>, names: Names)
    requires forall p <- ps :: PlainPath(p)
    ensures forall piece <- RenderPaths(ps) :: ',' !in piece
  {
    var r := RenderPaths(ps);
    forall piece <- r
      ensures ',' !in piece
    {
      var i :| 0 <= i < |r| && r[i] == piece;
      assert ps[i] in ps;
      PathRoundTrip(ps[i], names);
    }
  }

  /** A rendered non-empty list of paths is not blank. */
  lemma RenderedNotBlank(ps: seq<PathValue>, names: Names)
    requires |ps| >= 1
    requires forall p <- ps :: PlainPath(p)
    ensures Trim(RenderExpression(ps)) != []
  {
    var r := RenderPaths(ps);
    assert ps[0] in ps;
    PathRoundTrip(ps[0], names);
    JoinStartsWith(r, ',');
    var e := RenderExpression(ps);
    assert e[0] == r[0][0] && IsPathChar(r[0][0]);
    assert e[0] in e;
    TrimEmpty(e);
  }

  lemma JoinStartsWith(pieces: seq<string>, sep: char)
    requires |pieces| >= 1 && pieces[0] != []
    ensures Join(pieces, sep) != [] && Join(pieces, sep)[0] == pieces[0][0]
  {
  }

  // ---------------------------------------------------------------------------
  // Properties of the expression syntax

  /** A segment that is empty after trimming makes the whole expression an error. */
  lemma {:induction false} EmptySegmentFails(segments: seq<string>, k: nat, names: Names)
    requires k < |segments| && Trim(segments[k]) == []
    ensures ParseSegments(segments, names).Err?
    decreases k
  {
    if Trim(segments[0]) == [] {
      SegmentsHeadFails(segments, names);
    } else {
      var rest := segments[1..];
      assert rest[k - 1] == segments[k];
      EmptySegmentFails(rest, k - 1, names);
      SegmentsTailFails(segments, names);
    }
  }

  /** An empty first segment is a failure of the whole list. */
  lemma SegmentsHeadFails(segments: seq<string>, names: Names)
    requires segments != [] && Trim(segments[0]) == []
    ensures ParseSegments(segments, names).Err?
  {
  }

  /** A failure after the first segment is a failure of the whole list. */
  lemma SegmentsTailFails(segments: seq<string>, names: Names)
    requires segments != [] && ParseSegments(segments[1..], names).Err?
    ensures ParseSegments(segments, names).Err?
  {
  }

  /**
   * An expression in which some comma-separated segment is empty or only
   * whitespace is refused: a comma at either end, two commas in a row.
   */
  lemma EmptySegmentRefused(pieces: seq<string>, k: nat, names: Names)
    requires k < |pieces| && Trim(pieces[k]) == []
    requires forall piece <- pieces :: ',' !in piece
    ensures ParseExpression(Join(pieces, ','), names).Err?
  {
    if Trim(Join(pieces, ',')) != [] {
      SplitJoin(pieces, ',');
      EmptySegmentFails(pieces, k, names);
    }
  }

  /** Segments that trim to the same text parse the same. */
  lemma {:induction false} SegmentsIgnoreWhitespace(segments: seq<string>, padded: seq<string>, names: Names)
    requires |segments| == |padded|
    requires forall i :: 0 <= i < |segments| ==> Trim(padded[i]) == Trim(segments[i])
    ensures ParseSegments(padded, names) == ParseSegments(segments, names)
    decreases |segments|
  {
    if segments != [] {
      SegmentsIgnoreWhitespace(segments[1..], padded[1..], names);
    }
  }

  predicate AllWhitespace(s: string) {
    forall c <- s :: IsWhitespace(c)
  }

  /** Pads every segment with whitespace on both sides. */
  function Pad(segments: seq<string>, left: seq<string>, right: seq<string>): (r: seq<string>)
    requires |left| == |right| == |segments|
    ensures |r| == |segments|
    ensures forall i :: 0 <= i < |r| ==> r[i] == left[i] + segments[i] + right[i]
    decreases |segments|
  {
    if segments == [] then []
    else [left[0] + segments[0] + right[0]] + Pad(segments[1..], left[1..], right[1..])
  }

  /**
   * Whitespace around the paths and around the commas between them is
   * ignored: `' a  ,   b  '` parses as `'a,b'` does.
   */
  lemma ExpressionIgnoresWhitespace(segments: seq<string>, left: seq<string>, right: seq<string>, names: Names)
    requires |segments| >= 1 && |left| == |right| == |segments|
    requires forall s <- segments :: ',' !in s
    requires forall w <- left :: AllWhitespace(w)
    requires forall w <- right :: AllWhitespace(w)
    ensures ParseExpression(Join(Pad(segments, left, right), ','), names) ==
            ParseExpression(Join(segments, ','), names)
  {
    var padded := Pad(segments, left, right);
    forall i | 0 <= i < |segments|
      ensures Trim(padded[i]) == Trim(segments[i]) && ',' !in padded[i]
    {
      assert left[i] in left && right[i] in right;
      TrimPadding(left[i], segments[i], right[i]);
      assert ',' !in left[i] && ',' !in right[i];
    }
    SplitJoin(segments, ',');
    SplitJoin(padded, ',');
    SegmentsIgnoreWhitespace(segments, padded, names);
    if |segments| == 1 {
      assert Join(padded, ',') == padded[0];
    } else {
      JoinHasSeparator(segments, ',');
      JoinHasSeparator(padded, ',');
      TrimEmpty(Join(segments, ','));
      TrimEmpty(Join(padded, ','));
    }
  }

  lemma JoinHasSeparator(pieces: seq<string>, sep: char)
    requires |pieces| >= 2
    ensures sep in Join(pieces, sep)
  {
    assert Join(pieces, sep)[|pieces[0]|] == sep;
  }

  /** Reading `#word` looks the alias up in the names table. */
  lemma ParseAliasName(word: string, rest: string, names: Names)
    requires IsName(word)
    requires rest == [] || !IsNameChar(rest[0])
    ensures ParseName("#" + word + rest, names) ==
              if "#" + word in names then Ok((names["#" + word], rest))
              else Err(UnknownAlias("#" + word))
  {
    var s := "#" + word + rest;
    assert s[0] == '#' && s[1..] == word + rest;
    forall k | 0 <= k < |word|
      ensures IsNameChar(s[1..][k])
    {
      assert s[1..][k] == word[k] && word[k] in word;
    }
    NameLengthOfName(s[1..], |word|);
    assert s[..|word| + 1] == "#" + word;
    assert s[|word| + 1..] == rest;
  }

  /** An alias is replaced by its entry in the names table. */
  lemma AliasRoot(word: string, ops: seq<Operator>, names: Names)
    requires IsName(word) && "#" + word in names
    requires forall op <- ops :: op.Dot? ==> IsName(op.name)
    ensures ParsePath("#" + word + RenderOperators(ops), names) == Ok(PathValue(names["#" + word], ops))
  {
    RenderOperatorsChars(ops);
    ParseAliasName(word, RenderOperators(ops), names);
    OperatorsRoundTrip(ops, names);
  }

  /** An alias missing from the names table is an error. */
  lemma UnknownAliasFails(word: string, rest: string, names: Names)
    requires IsName(word) && "#" + word !in names
    requires rest == [] || !IsNameChar(rest[0])
    ensures ParsePath("#" + word + rest, names) == Err(UnknownAlias("#" + word))
  {
    ParseAliasName(word, rest, names);
  }
}

/** The parser of method and event signatures (ethcoder/abi_sig_parser.go) and the printer of
    what it returns (ethcoder/abi_sig.go). */
module AbiSignature {
  import opened Wrappers
  import opened Text

  datatype Error = InvalidFormat | SliceOutOfRange | NoClosingParen | InvalidArgument | InvalidIndexed

  /** What a signature is parsed into; its hash is left out. */
  datatype Signature = Signature(
    name: string, signature: string,
    argTypes: seq<string>, argNames: seq<string>, argIndexed: seq<bool>, numIndexed: nat)

  /** Arguments up to the first tuple, that tuple, and what follows it. */
  datatype Tree = Tree(
    left: string, indexed: seq<bool>, names: seq<string>,
    tuple: Option<Tree>, tupleArray: string, tupleIndexed: bool, tupleName: string,
    right: Option<Tree>)

  // ---- findParensCloseIndex ---------------------------------------------------------------

  /** The place where a closing parenthesis brings the depth, n at the start, to zero; or -1. */
  function CloseIndex(args: string, n: int): (r: int)
    ensures -1 <= r < |args| && (r >= 0 ==> args[r] == ')')
  {
    if args == "" then -1
    else if args[0] == ')' && n == 1 then 0
    else
      var k := CloseIndex(args[1..], if args[0] == '(' then n + 1 else if args[0] == ')' then n - 1 else n);
      if k < 0 then -1 else k + 1
  }

  method FindParensCloseIndex(args: string) returns (r: Result<nat, Error>)
    ensures r == var k := CloseIndex(args, 0); if k < 0 then Err(NoClosingParen) else Ok(k)
  {
    var n := 0;
    for i := 0 to |args|
      invariant CloseIndex(args, 0) == var k := CloseIndex(args[i..], n); if k < 0 then -1 else i + k
    {
      assert args[i..][1..] == args[i + 1..];
      if args[i] == '(' {
        n := n + 1;
      } else if args[i] == ')' {
        n := n - 1;
        if n == 0 {
          return Ok(i);
        }
      }
    }
    return Err(NoClosingParen);
  }

  // ---- arguments without a tuple ----------------------------------------------------------

  datatype Left = Left(types: seq<string>, indexed: seq<bool>, names: seq<string>)

  const NO_ARGS := Left([], [], [])

  /** One comma-separated piece: a type, then perhaps "indexed", then perhaps a name. */
  function AddPiece(l: Left, piece: string): (r: Result<Left, Error>)
  {
    AddWords(l, Split(Trim(piece), ' '))
  }

  function AddWords(l: Left, arg: seq<string>): (r: Result<Left, Error>)
    requires |arg| > 0
  {
    if |arg| > 3 then Err(InvalidArgument)
    else if |arg| == 3 && arg[1] != "indexed" then Err(InvalidIndexed)
    else
      var typ := Trim(arg[0]);
      var types := if |typ| > 0 then l.types + [typ] else l.types;
      if |arg| == 3 then Ok(Left(types, l.indexed + [true], l.names + [arg[2]]))
      else if |arg| == 2 && arg[1] == "indexed" then Ok(Left(types, l.indexed + [true], l.names + [""]))
      else if arg[0] != "" then Ok(Left(types, l.indexed + [false], l.names + [if |arg| > 1 then arg[1] else ""]))
      else Ok(Left(types, l.indexed, l.names))
  }

  function AddPieces(l: Left, pieces: seq<string>): (r: Result<Left, Error>)
    decreases |pieces|
  {
    if pieces == [] then Ok(l)
    else
      var m := AddPiece(l, pieces[0]);
      if m.Err? then m else AddPieces(m.value, pieces[1..])
  }

  /** The arguments in a text without parentheses. */
  function Pieces(p1: string): (r: Result<Left, Error>)
  {
    AddPieces(NO_ARGS, Split(p1, ','))
  }

  /** Every type followed by a comma. */
  function Terminated(types: seq<string>): (s: string)
  {
    if types == [] then "" else Terminated(types[..|types| - 1]) + types[|types| - 1] + ","
  }

  /** The loop over p1, which builds the types as one string. */
  method ParsePieces(p1: string) returns (r: Result<(string, seq<bool>, seq<string>), Error>)
    ensures r.Ok? == Pieces(p1).Ok?
    ensures r.Err? ==> r.error == Pieces(p1).error
    ensures r.Ok? ==> var l := Pieces(p1).value; r.value == (Join(l.types, ","), l.indexed, l.names)
  {
    var p := Split(p1, ',');
    var s, indexed, names := "", [], [];
    ghost var types: seq<string> := [];
    for i := 0 to |p|
      invariant s == Terminated(types)
      invariant Pieces(p1) == AddPieces(Left(types, indexed, names), p[i..])
    {
      ghost var l := Left(types, indexed, names);
      assert p[i..][1..] == p[i + 1..];
      var arg := Split(Trim(p[i]), ' ');
      if |arg| > 3 {
        return Err(InvalidArgument);
      }
      if |arg| == 3 && arg[1] == "indexed" {
        indexed, names := indexed + [true], names + [arg[2]];
      } else if |arg| == 3 && arg[1] != "indexed" {
        return Err(InvalidIndexed);
      } else if |arg| == 2 && arg[1] == "indexed" {
        indexed, names := indexed + [true], names + [""];
      } else if |arg| > 0 && arg[0] != "" {
        indexed := indexed + [false];
        if |arg| > 1 {
          names := names + [arg[1]];
        } else {
          names := names + [""];
        }
      }
      var typ := Trim(arg[0]);
      if |typ| > 0 {
        TerminatedStep(types, typ);
        types := types + [typ];
        s := s + typ + ",";
      }
      assert AddPiece(l, p[i]) == Ok(Left(types, indexed, names));
    }
    TerminatedJoin(types);
    if |s| > 0 {
      s := s[..|s| - 1];
    }
    return Ok((s, indexed, names));
  }

  lemma TerminatedStep(types: seq<string>, t: string)
    ensures Terminated(types + [t]) == Terminated(types) + t + ","
  {
    assert (types + [t])[..|types|] == types;
  }

  lemma {:induction false} TerminatedJoin(types: seq<string>)
    ensures Terminated(types) == if types == [] then "" else Join(types, ",") + ","
    decreases |types|
  {
    if types != [] {
      var n := |types| - 1;
      TerminatedJoin(types[..n]);
      assert types == types[..n] + [types[n]];
      if n > 0 {
        JoinConcat(types[..n], [types[n]], ",");
      }
    }
  }

  // ---- parseABISignatureArgs --------------------------------------------------------------

  /** The text around the first tuple: before, inside, its array suffix, flag and name, after. */
  datatype Cuts = Cuts(p1: string, p2: string, p2ar: string, p2indexed: bool, p2name: string, p3: string)

  /** "indexed" and a name after a tuple. */
  function Label(text: string): (r: (bool, string))
  {
    var n := Split(Trim(text), ' ');
    var n0 := TrimRight(n[0], ',');
    if |n| == 1 && n0 != "indexed" then (false, n0)
    else if |n| == 1 then (true, "")
    else if |n| == 2 && n0 == "indexed" then (true, TrimRight(n[1], ','))
    else (false, "")
  }

  /** The last closing bracket of any kind. */
  function LastClose(q: string): (xx: int)
    ensures -1 <= xx < |q| && (')' in q ==> xx >= 0)
  {
    var x1, x2 := LastIndex(q, ']'), LastIndex(q, ')');
    if x1 >= x2 then x1 else x2
  }

  /** A tuple's text up to its last bracket, taken apart into what is inside and the array suffix. */
  function Unwrap(q: string): (r: (string, string))
    requires |q| >= 2 && LastIndex(q, ')') >= 1
    ensures |r.0| + 2 <= |q|
  {
    var x1, x2 := LastIndex(q, ']'), LastIndex(q, ')');
    if x1 > 0 && x2 < x1 then (q[1..x2], q[x2 + 1..x1 + 1]) else (q[1..|q| - 1], "")
  }

  /** Where the tuple that opens at a, with everything that belongs to it, ends. */
  function TupleEnd(args: string, a: nat): (z: int)
    requires a < |args| && args[a] == '('
    ensures z == -1 || (a + 2 <= z <= |args| && ')' in args[a..z])
  {
    var c := CloseIndex(args[a..], 0);
    if c < 0 then -1
    else
      var z := c + a + 1;
      assert args[a..][c] == args[z - 1];
      var x := Index(args[z..], ',');
      var e := if x > 0 then z + x + 1 else z;
      assert args[a..e][c] == ')';
      e
  }

  /** Text that can be taken apart: an opening parenthesis and, later, a closing one. */
  predicate TupleLike(q: string)
  {
    LastClose(q) >= 1 && LastIndex(q[..LastClose(q) + 1], ')') >= 1
  }

  lemma TupleText(w: string)
    requires w != "" && w[0] == '(' && ')' in w
    ensures TupleLike(Trim(w))
  {
    var right := TrimsEnd(w);
    var i :| 0 <= i < |w| && w[i] == ')';
    ClosesBefore(Trim(w), right, i);
  }

  lemma ClosesBefore(q: string, right: string, i: nat)
    requires Spaces(right) && 0 < i < |q + right| && (q + right)[i] == ')'
    ensures TupleLike(q)
  {
    assert i < |q|;
    assert q[..LastClose(q) + 1][i] == ')';
  }

  function Cut(args: string): (r: Result<Cuts, Error>)
    ensures r.Ok? ==> |r.value.p2| + 2 <= |args| || r.value.p2 == ""
    ensures r.Ok? ==> |r.value.p3| + 2 <= |args| || r.value.p3 == ""
  {
    var a := Index(args, '(');
    if a < 0 then Ok(Cuts(args, "", "", false, "", ""))
    else
      var z := TupleEnd(args, a);
      if z < 0 then Err(NoClosingParen)
      else
        TupleText(args[a..z]);
        Ok(CutAround(args[..a], Trim(args[a..z]), args[z..]))
  }

  /** The pieces around the tuple with text q. */
  function CutAround(before: string, q: string, after: string): (c: Cuts)
    requires TupleLike(q)
    ensures |c.p2| + 2 <= |q| && |c.p3| <= |after|
  {
    var xx := LastClose(q);
    var tag := Label(q[xx + 1..]);
    var body := Unwrap(q[..xx + 1]);
    Cuts(Trim(before), body.0, body.1, tag.0, tag.1, Trim(after))
  }

  /** The text without outer space and with a comma at the end, unless it is empty. */
  function Normal(text: string): (args: string)
    ensures |args| <= |text| + 1
  {
    var t := Trim(text);
    if t == "" then "" else if t[|t| - 1] != ',' then t + "," else t
  }

  const EMPTY := Tree("", [], [], None, "", false, "", None)

  /** parseABISignatureArgs. It terminates: a tuple's inside and what follows it are shorter. */
  function ParseTree(text: string): (r: Result<Tree, Error>)
    decreases |text| + 1, 1
  {
    var args := Normal(text);
    if args == "" then Ok(EMPTY) else ParseNormal(args)
  }

  function ParseNormal(args: string): (r: Result<Tree, Error>)
    decreases |args|, 0
  {
    var cuts := Cut(args);
    if cuts.Err? then Err(cuts.error)
    else
      var c := cuts.value;
      var left := Pieces(c.p1);
      if left.Err? then Err(left.error)
      else
        var tuple := if |c.p2| > 0 then ParseTree(c.p2) else Ok(EMPTY);
        if tuple.Err? then tuple
        else
          var right := if |c.p3| > 0 then ParseTree(c.p3) else Ok(EMPTY);
          if right.Err? then right else Ok(Assemble(c, left.value, tuple.value, right.value))
  }

  /** The tree of a text: there is a tuple, or a rest, only if its text is not empty. */
  function Assemble(c: Cuts, l: Left, tuple: Tree, right: Tree): (t: Tree)
  {
    var rest := if |c.p3| > 0 then Some(right) else None;
    if |c.p2| > 0
    then Tree(Join(l.types, ","), l.indexed, l.names, Some(tuple), c.p2ar, c.p2indexed, c.p2name, rest)
    else Tree(Join(l.types, ","), l.indexed, l.names, None, "", false, "", rest)
  }

  /** The recursive method itself, with its loops. */
  method ParseABISignatureArgs(eventArgs: string) returns (r: Result<Tree, Error>)
    ensures r == ParseTree(eventArgs)
    decreases |eventArgs| + 1, 1
  {
    var args := Trim(eventArgs);
    if args == "" {
      return Ok(EMPTY);
    }
    if args[|args| - 1] != ',' {
      args := args + ",";
    }
    assert args == Normal(eventArgs);
    ParseTreeIs(eventArgs);
    r := ParseNormalArgs(args);
  }

  lemma ParseTreeIs(text: string)
    ensures Normal(text) == "" ==> ParseTree(text) == Ok(EMPTY)
    ensures Normal(text) != "" ==> ParseTree(text) == ParseNormal(Normal(text))
  {
  }

  method ParseNormalArgs(args: string) returns (r: Result<Tree, Error>)
    ensures r == ParseNormal(args)
    decreases |args|, 0
  {
    var cuts := CutArgs(args);
    if cuts.Err? {
      return Err(cuts.error);
    }
    var c := cuts.value;
    ghost var l, tuple, right := Pieces(c.p1), EMPTY, EMPTY;
    var out := EMPTY;
    if |c.p1| > 0 {
      var left := ParsePieces(c.p1);
      if left.Err? {
        return Err(left.error);
      }
      out := out.(left := left.value.0, indexed := left.value.1, names := left.value.2);
    } else {
      NothingBefore(c.p1);
    }
    if |c.p2| > 0 {
      var out2 := ParseABISignatureArgs(c.p2);
      if out2.Err? {
        return out2;
      }
      tuple := out2.value;
      out := out.(tuple := Some(out2.value), tupleArray := c.p2ar, tupleIndexed := c.p2indexed, tupleName := c.p2name);
    }
    if |c.p3| > 0 {
      var out3 := ParseABISignatureArgs(c.p3);
      if out3.Err? {
        return out3;
      }
      right := out3.value;
      out := out.(right := Some(out3.value));
    }
    assert out == Assemble(c, l.value, tuple, right);
    return Ok(out);
  }

  /** The first part of parseABISignatureArgs, which finds the first tuple. */
  method CutArgs(args: string) returns (r: Result<Cuts, Error>)
    ensures r == Cut(args)
  {
    var a := Index(args, '(');
    if a < 0 {
      return Ok(Cuts(args, "", "", false, "", ""));
    }
    var z := FindTupleEnd(args, a);
    if z < 0 {
      return Err(NoClosingParen);
    }
    TupleText(args[a..z]);
    return Ok(CutAround(args[..a], Trim(args[a..z]), args[z..]));
  }

  method FindTupleEnd(args: string, a: nat) returns (z: int)
    requires a < |args| && args[a] == '('
    ensures z == TupleEnd(args, a)
  {
    var close := FindParensCloseIndex(args[a..]);
    if close.Err? {
      return -1;
    }
    z := close.value + a + 1;
    var x := Index(args[z..], ',');
    if x > 0 {
      z := z + x + 1;
    }
  }

  lemma NothingBefore(p1: string)
    requires p1 == ""
    ensures Pieces(p1) == Ok(NO_ARGS)
  {
    assert Split(p1, ',') == [""];
    assert Trim("") == "";
    assert Split("", ' ') == [""];
    assert AddPiece(NO_ARGS, "") == Ok(NO_ARGS);
  }

  // ---- groupABISignatureTree --------------------------------------------------------------

  /** The signature text, and the types, flags and names of the arguments. */
  datatype Group = Group(out: string, typs: seq<string>, indexed: seq<bool>, names: seq<string>)

  function NonEmpty(parts: seq<string>): (r: seq<string>)
  {
    if parts == [] then [] else (if parts[0] != "" then [parts[0]] else []) + NonEmpty(parts[1..])
  }

  /** A tuple's text, or nothing. */
  function TupleType(t: Tree): (b: string)
    decreases t, 0
  {
    var s := if t.tuple.Some? then GroupTree(t.tuple.value, false).out else "";
    (if s != "" then "(" + TrimRight(s, ',') + ")" else "") + t.tupleArray
  }

  function GroupTree(t: Tree, own: bool): (g: Group)
    decreases t, 1
  {
    var b := TupleType(t);
    var r := if t.right.Some? then GroupTree(t.right.value, true) else Group("", [], [], []);
    var tuple := if own && b != "" then Group("", [b], [t.tupleIndexed], [t.tupleName]) else Group("", [], [], []);
    var left := if own then Group("", NonEmpty(Split(t.left, ',')), t.indexed, t.names) else Group("", [], [], []);
    Group(OutText(t.left, b, r.out), left.typs + tuple.typs + NonEmpty(r.typs),
          left.indexed + tuple.indexed + r.indexed, left.names + tuple.names + r.names)
  }

  /** What is not empty gets a comma. */
  function Comma(s: string): (r: string)
  {
    if s != "" then s + "," else ""
  }

  /** The texts before, of and after a tuple, put together. */
  function OutText(a: string, b: string, rest: string): (out: string)
  {
    TrimRight(Comma(a) + Comma(b) + (if rest != "" then TrimRight(rest, ',') + "," else ""), ',')
  }

  // ---- ParseABISignature and String -------------------------------------------------------

  function DefaultName(name: string, i: nat): (r: string)
  {
    if name != "" then name else "arg" + Decimal(i + 1)
  }

  function DefaultNames(names: seq<string>): (r: seq<string>)
    ensures |r| == |names| && forall i :: 0 <= i < |names| ==> r[i] == DefaultName(names[i], i)
  {
    seq(|names|, i requires 0 <= i < |names| => DefaultName(names[i], i))
  }

  function CountTrue(flags: seq<bool>): (n: nat)
  {
    if flags == [] then 0 else CountTrue(flags[..|flags| - 1]) + (if flags[|flags| - 1] then 1 else 0)
  }

  /** It counts the places where the flag is set. */
  lemma {:induction false} CountsPlaces(flags: seq<bool>)
    ensures CountTrue(flags) == |set i | 0 <= i < |flags| && flags[i]|
    decreases |flags|
  {
    if flags != [] {
      var n := |flags| - 1;
      CountsPlaces(flags[..n]);
      var below, all := set i | 0 <= i < n && flags[..n][i], set i | 0 <= i < |flags| && flags[i];
      assert all == if flags[n] then below + {n} else below;
    }
  }

  /** ParseABISignature. The source does not check that the first opening parenthesis precedes the
      last closing one before it slices between them; that failure is an error here. */
  function Parse(text: string): (r: Result<Signature, Error>)
  {
    if '(' !in text || ')' !in text || Count(text, '(') != Count(text, ')') then Err(InvalidFormat)
    else
      var a, b := Index(text, '('), LastIndex(text, ')');
      if b < a then Err(SliceOutOfRange)
      else
        ParseBetween(text, a, b)
  }

  function ParseBetween(text: string, a: nat, b: nat): (r: Result<Signature, Error>)
    requires a < b < |text|
  {
    var name, args := Trim(text[..a]), Trim(text[a + 1..b]);
    if args == "" then Ok(Signature(name, name + "()", [], [], [], 0)) else ParseArguments(name, args)
  }

  /** A text on which the source crashes: the slice between the parentheses has its ends crossed. */
  lemma CrossedParens(text: string)
    requires text == ")("
    ensures Parse(text) == Err(SliceOutOfRange)
  {
    var rest := text[1..];
    assert text[0] == ')' && text[1] == '(' && rest[0] == '(' && rest[1..] == "";
    assert Count(rest, '(') == 1 && Count(rest, ')') == 0;
  }

  /** What is made of the arguments between the outer parentheses. */
  function ParseArguments(name: string, args: string): (r: Result<Signature, Error>)
  {
    var tree := ParseTree(args);
    if tree.Err? then Err(tree.error) else Ok(SignatureOf(name, GroupTree(tree.value, true)))
  }

  function SignatureOf(name: string, g: Group): (sig: Signature)
  {
    Signature(name, name + "(" + g.out + ")", g.typs, DefaultNames(g.names), g.indexed, CountTrue(g.indexed))
  }

  /** In every accepted text, numIndexed counts the indexed arguments. */
  lemma ParsedCount(text: string)
    ensures Parse(text).Ok? ==>
              var sig := Parse(text).value; sig.numIndexed == |set i | 0 <= i < |sig.argIndexed| && sig.argIndexed[i]|
  {
    if Parse(text).Ok? {
      CountsPlaces(Parse(text).value.argIndexed);
    }
  }

  method ParseABISignature(text: string) returns (r: Result<Signature, Error>)
    ensures r == Parse(text)
    ensures r.Ok? ==> Consistent(r.value) && forall i :: 0 <= i < |r.value.argNames| ==> r.value.argNames[i] != ""
    ensures r.Ok? ==> r.value.numIndexed == |set i | 0 <= i < |r.value.argIndexed| && r.value.argIndexed[i]|
  {
    ParsedLengths(text);
    ParsedCount(text);
    if '(' !in text || ')' !in text {
      return Err(InvalidFormat);
    }
    if Count(text, '(') != Count(text, ')') {
      return Err(InvalidFormat);
    }
    var a, b := Index(text, '('), LastIndex(text, ')');
    if b < a {
      return Err(SliceOutOfRange);
    }
    var name, args := Trim(text[..a]), Trim(text[a + 1..b]);
    if args == "" {
      return Ok(Signature(name, name + "()", [], [], [], 0));
    }
    var tree := ParseABISignatureArgs(args);
    if tree.Err? {
      return Err(tree.error);
    }
    var g := GroupTree(tree.value, true);
    var argNames := NameAll(g.names);
    var numIndexed := CountIndexed(g.indexed);
    return Ok(Signature(name, name + "(" + g.out + ")", g.typs, argNames, g.indexed, numIndexed));
  }

  /** The loop that names the arguments without a name by their position. */
  method NameAll(names: seq<string>) returns (argNames: seq<string>)
    ensures argNames == DefaultNames(names)
  {
    argNames := [];
    for i := 0 to |names|
      invariant argNames == DefaultNames(names)[..i]
    {
      if names[i] != "" {
        argNames := argNames + [names[i]];
      } else {
        argNames := argNames + ["arg" + Decimal(i + 1)];
      }
    }
  }

  /** The loop that counts the indexed arguments. */
  method CountIndexed(indexed: seq<bool>) returns (n: nat)
    ensures n == CountTrue(indexed)
  {
    n := 0;
    for i := 0 to |indexed|
      invariant n == CountTrue(indexed[..i])
    {
      assert indexed[..i + 1][..i] == indexed[..i];
      if indexed[i] {
        n := n + 1;
      }
    }
    assert indexed[..|indexed|] == indexed;
  }

  /** One argument as String prints it. */
  function PrintArg(typ: string, indexed: bool, name: string): (s: string)
  {
    typ + (if indexed then " indexed" else "") + (if name != "" then " " + name else "")
  }

  function PrintArgs(types: seq<string>, indexed: seq<bool>, names: seq<string>): (r: seq<string>)
    requires |types| == |indexed| == |names|
    ensures |r| == |types| && forall i :: 0 <= i < |types| ==> r[i] == PrintArg(types[i], indexed[i], names[i])
  {
    seq(|types|, i requires 0 <= i < |types| => PrintArg(types[i], indexed[i], names[i]))
  }

  /** The arguments with flags and names, separated by commas. */
  function StringText(e: Signature): (s: string)
    requires |e.argTypes| == |e.argIndexed| == |e.argNames|
  {
    e.name + "(" + Join(PrintArgs(e.argTypes, e.argIndexed, e.argNames), ",") + ")"
  }

  method StringOf(e: Signature) returns (r: string)
    ensures |e.argTypes| == |e.argIndexed| == |e.argNames| ==> r == StringText(e)
    ensures !(|e.argTypes| == |e.argIndexed| == |e.argNames|) ==> r == "<invalid abi signature definition>"
  {
    if !(|e.argTypes| == |e.argIndexed| && |e.argTypes| == |e.argNames|) {
      return "<invalid abi signature definition>";
    }
    ghost var parts := PrintArgs(e.argTypes, e.argIndexed, e.argNames);
    var s := "";
    for i := 0 to |e.argTypes|
      invariant s == Listed(parts, i)
    {
      ListedStep(parts, i);
      s := s + e.argTypes[i];
      if e.argIndexed[i] {
        s := s + " indexed";
      }
      if e.argNames[i] != "" {
        s := s + " " + e.argNames[i];
      }
      assert s == Listed(parts, i) + parts[i];
      if i < |e.argTypes| - 1 {
        s := s + ",";
      }
    }
    assert parts[..|parts|] == parts;
    r := e.name + "(" + s + ")";
  }

  /** The first i parts, with a comma if there are more. */
  ghost function Listed(parts: seq<string>, i: nat): (s: string)
    requires i <= |parts|
  {
    Join(parts[..i], ",") + (if 0 < i < |parts| then "," else "")
  }

  lemma ListedStep(parts: seq<string>, i: nat)
    requires i < |parts|
    ensures Listed(parts, i + 1) == Listed(parts, i) + parts[i] + (if i < |parts| - 1 then "," else "")
  {
    assert parts[..i + 1] == parts[..i] + [parts[i]];
    if i > 0 {
      JoinConcat(parts[..i], [parts[i]], ",");
    }
  }

  // ---- equal lengths ----------------------------------------------------------------------

  /** Types without commas, one flag and one name for each. */
  ghost predicate Paired(l: Left)
  {
    && |l.types| == |l.indexed| == |l.names|
    && forall i :: 0 <= i < |l.types| ==> l.types[i] != "" && ',' !in l.types[i]
  }

  /** Every piece adds a type, a flag and a name, or nothing at all. */
  lemma {:induction false} PieceAddsOne(l: Left, piece: string)
    requires ',' !in piece
    ensures var typ := Trim(Split(Trim(piece), ' ')[0]);
            && ',' !in typ && (typ == "" ==> AddPiece(l, piece) == Ok(l))
            && (typ != "" && AddPiece(l, piece).Ok? ==>
                  exists flag, name :: AddPiece(l, piece) == Ok(Left(l.types + [typ], l.indexed + [flag], l.names + [name])))
  {
    var t := Trim(piece);
    TrimKeepsChars(piece, ',');
    FirstWord(t);
    TrimKeepsChars(Split(t, ' ')[0], ',');
  }

  lemma PieceKeepsPaired(l: Left, piece: string)
    requires Paired(l) && ',' !in piece
    ensures AddPiece(l, piece).Ok? ==> Paired(AddPiece(l, piece).value)
  {
    PieceAddsOne(l, piece);
  }

  /** A trimmed text has no new characters. */
  lemma TrimKeepsChars(s: string, c: char)
    requires c !in s
    ensures c !in Trim(s) && Trimmed(Trim(s))
  {
    var left, right := TrimTrims(s);
    assert forall d :: d in Trim(s) ==> d in s;
  }

  /** The first word of a trimmed text is empty only if the text is; then it is the only word. */
  lemma FirstWord(t: string)
    requires Trimmed(t)
    ensures var arg := Split(t, ' ');
            && (t == "" ==> arg == [""] && Trim(arg[0]) == "")
            && (t != "" ==> Trim(arg[0]) != "" && arg[0] != "") && forall c :: c in arg[0] ==> c in t
  {
    var w := Split(t, ' ')[0];
    if t != "" {
      assert w != "" && w[0] == t[0];
      var left, right := TrimTrims(w);
      assert Trim(w) == "" ==> w == left + right;
    }
  }

  lemma {:induction false} PiecesPaired(l: Left, pieces: seq<string>)
    requires Paired(l) && forall i :: 0 <= i < |pieces| ==> ',' !in pieces[i]
    ensures AddPieces(l, pieces).Ok? ==> Paired(AddPieces(l, pieces).value)
    decreases |pieces|
  {
    if pieces != [] {
      PieceKeepsPaired(l, pieces[0]);
      var m := AddPiece(l, pieces[0]);
      if m.Ok? {
        PiecesPaired(m.value, pieces[1..]);
      }
    }
  }

  /** A tree whose text of types stands for as many types as it has flags and names. */
  ghost predicate WellPaired(t: Tree)
  {
    && |NonEmpty(Split(t.left, ','))| == |t.indexed| == |t.names|
    && (t.right.Some? ==> WellPaired(t.right.value))
  }

  lemma {:induction false} NonEmptyAll(parts: seq<string>)
    requires forall i :: 0 <= i < |parts| ==> parts[i] != ""
    ensures NonEmpty(parts) == parts
    decreases |parts|
  {
    if parts != [] {
      NonEmptyAll(parts[1..]);
    }
  }

  lemma {:induction false} NonEmptyIs(parts: seq<string>, i: nat)
    requires i < |NonEmpty(parts)|
    ensures NonEmpty(parts)[i] != ""
    decreases |parts|
  {
    if parts[0] == "" {
      NonEmptyIs(parts[1..], i);
    } else if i > 0 {
      NonEmptyIs(parts[1..], i - 1);
    }
  }

  /** Splitting the joined types again loses none. */
  lemma TypesAgain(types: seq<string>)
    requires forall i :: 0 <= i < |types| ==> types[i] != "" && ',' !in types[i]
    ensures NonEmpty(Split(Join(types, ","), ',')) == types
  {
    if types == [] {
      assert Split("", ',') == [""];
      assert NonEmpty([""]) == [];
    } else {
      SplitJoin(types, ',');
      NonEmptyAll(types);
    }
  }

  lemma {:induction false} NormalPaired(args: string)
    ensures ParseNormal(args).Ok? ==> WellPaired(ParseNormal(args).value)
    decreases |args|, 0
  {
    var cuts := Cut(args);
    if cuts.Ok? && ParseNormal(args).Ok? {
      var c := cuts.value;
      forall i | 0 <= i < |Split(c.p1, ',')| ensures ',' !in Split(c.p1, ',')[i] {
        PartsHaveNone(c.p1, ',', i);
      }
      PiecesPaired(NO_ARGS, Split(c.p1, ','));
      TypesAgain(Pieces(c.p1).value.types);
      if |c.p3| > 0 {
        ParsedPaired(c.p3);
      }
    }
  }

  lemma {:induction false} ParsedPaired(text: string)
    ensures ParseTree(text).Ok? ==> WellPaired(ParseTree(text).value)
    decreases |text| + 1, 1
  {
    var args := Normal(text);
    if args == "" {
      TypesAgain([]);
    } else {
      NormalPaired(args);
    }
  }

  /** Grouping keeps one type, one flag and one name together. */
  lemma {:induction false} GroupedLengths(t: Tree)
    requires WellPaired(t)
    ensures var g := GroupTree(t, true);
            |g.typs| == |g.indexed| == |g.names| && forall i :: 0 <= i < |g.typs| ==> g.typs[i] != ""
    decreases t
  {
    var types := NonEmpty(Split(t.left, ','));
    forall i | 0 <= i < |types| ensures types[i] != "" {
      NonEmptyIs(Split(t.left, ','), i);
    }
    if t.right.Some? {
      GroupedLengths(t.right.value);
      NonEmptyAll(GroupTree(t.right.value, true).typs);
    } else {
      assert NonEmpty([]) == [];
    }
  }

  /** As many types as flags and names, and no type empty. */
  predicate Consistent(sig: Signature)
  {
    |sig.argTypes| == |sig.argNames| == |sig.argIndexed| && forall i :: 0 <= i < |sig.argTypes| ==> sig.argTypes[i] != ""
  }

  lemma ArgumentLengths(name: string, args: string)
    ensures var r := ParseArguments(name, args); r.Ok? ==> Consistent(r.value)
  {
    if ParseTree(args).Ok? {
      ParsedPaired(args);
      GroupedLengths(ParseTree(args).value);
    }
  }

  lemma BetweenLengths(text: string, a: nat, b: nat)
    requires a < b < |text|
    ensures var r := ParseBetween(text, a, b); r.Ok? ==> Consistent(r.value)
  {
    ArgumentLengths(Trim(text[..a]), Trim(text[a + 1..b]));
  }

  /** Every accepted signature has as many types as flags and names. */
  lemma ParsedLengths(text: string)
    ensures var r := Parse(text); r.Ok? ==> Consistent(r.value)
  {
    if Parse(text).Ok? {
      BetweenLengths(text, Index(text, '('), LastIndex(text, ')'));
    }
  }
}

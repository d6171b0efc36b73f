/** Signatures as they are written: argument trees with nested tuples, array suffixes, flags and
    names, their text, and what parsing makes of it. */
module SignatureText {
  import opened Wrappers
  import opened Text
  import opened AbiSignature

  datatype Type = Elem(text: string) | TupleOf(args: seq<Arg>, arr: string)

  datatype Arg = Arg(typ: Type, indexed: bool, name: string)

  // ---- well-formed arguments --------------------------------------------------------------

  predicate Plain(c: char)
  {
    !IsSpace(c) && c != ',' && c != '(' && c != ')'
  }

  predicate Word(s: string)
  {
    forall i :: 0 <= i < |s| ==> Plain(s[i])
  }

  /** A name, or none; the keyword "indexed" is not a name. */
  predicate GoodName(n: string)
  {
    Word(n) && ']' !in n && n != "indexed"
  }

  predicate GoodArray(a: string)
  {
    Word(a) && (a != "" ==> a[|a| - 1] == ']')
  }

  /** Elementary types are words, array brackets included. Tuples may be empty. */
  predicate GoodType(t: Type)
  {
    match t
    case Elem(s) => s != "" && Word(s)
    case TupleOf(args, arr) => GoodArgs(args) && GoodArray(arr)
  }

  predicate GoodArg(a: Arg)
  {
    GoodType(a.typ) && GoodName(a.name)
  }

  predicate GoodArgs(args: seq<Arg>)
  {
    args != [] ==> GoodArg(args[0]) && GoodArgs(args[1..])
  }

  /** No tuple in it, at any depth, is empty. */
  predicate FullType(t: Type)
  {
    match t
    case Elem(_) => true
    case TupleOf(args, _) => args != [] && Full(args)
  }

  predicate Full(args: seq<Arg>)
  {
    args != [] ==> FullType(args[0].typ) && Full(args[1..])
  }

  /** What the parser leaves of a type. An empty tuple is lost, with all that belongs to it; a tuple
      whose inside is lost leaves only its array suffix. */
  function PrunedType(t: Type): (r: Option<Type>)
  {
    match t
    case Elem(_) => Some(t)
    case TupleOf(args, arr) =>
      var p := Pruned(args);
      if args == [] then None
      else if p != [] then Some(TupleOf(p, arr))
      else if arr != "" then Some(Elem(arr))
      else None
  }

  function PrunedArg(a: Arg): (r: seq<Arg>)
    ensures |r| <= 1
  {
    var t := PrunedType(a.typ);
    if t == None then [] else [Arg(t.value, a.indexed, a.name)]
  }

  function Pruned(args: seq<Arg>): (r: seq<Arg>)
  {
    if args == [] then [] else PrunedArg(args[0]) + Pruned(args[1..])
  }

  /** What is left is well formed and has no empty tuple. */
  lemma {:induction false} PrunedTypeGood(t: Type)
    requires GoodType(t)
    ensures PrunedType(t).Some? ==> GoodType(PrunedType(t).value) && FullType(PrunedType(t).value)
    ensures FullType(t) ==> PrunedType(t) == Some(t)
    decreases t
  {
    if t.TupleOf? {
      PrunedGood(t.args);
    }
  }

  lemma {:induction false} PrunedGood(args: seq<Arg>)
    requires GoodArgs(args)
    ensures GoodArgs(Pruned(args)) && Full(Pruned(args)) && (Full(args) ==> Pruned(args) == args)
    decreases args
  {
    if args != [] {
      PrunedTypeGood(args[0].typ);
      PrunedGood(args[1..]);
      PrunedCons(args);
    }
  }

  lemma {:induction false} PrunedCons(args: seq<Arg>)
    requires args != []
    ensures var t := PrunedType(args[0].typ);
            Pruned(args) == (if t == None then Pruned(args[1..]) else [Arg(t.value, args[0].indexed, args[0].name)] + Pruned(args[1..]))
  {
    assert Pruned(args) == PrunedArg(args[0]) + Pruned(args[1..]);
  }

  lemma {:induction false} PrunedConcat(p: seq<Arg>, q: seq<Arg>)
    ensures Pruned(p + q) == Pruned(p) + Pruned(q)
    decreases |p|
  {
    if p == [] {
      assert p + q == q;
    } else {
      assert (p + q)[1..] == p[1..] + q && (p + q)[0] == p[0];
      PrunedConcat(p[1..], q);
    }
  }

  lemma {:induction false} PrunedElems(args: seq<Arg>)
    requires AllElem(args)
    ensures Pruned(args) == args
    decreases |args|
  {
    if args != [] {
      PrunedCons(args);
      PrunedElems(args[1..]);
    }
  }

  lemma {:induction false} PrunedAround(elems: seq<Arg>, a: Arg, rest: seq<Arg>)
    requires AllElem(elems)
    ensures Pruned(elems + [a] + rest) == elems + PrunedArg(a) + Pruned(rest)
  {
    PrunedElems(elems);
    PrunedConcat(elems + [a], rest);
    PrunedConcat(elems, [a]);
    assert [a][1..] == [];
    assert Pruned([a]) == PrunedArg(a) + [];
  }

  // ---- text -------------------------------------------------------------------------------

  /** The type as written, with gap after every comma. */
  function TypeText(t: Type, gap: string): (s: string)
  {
    match t
    case Elem(s) => s
    case TupleOf(args, arr) => "(" + Joined(args, gap) + ")" + arr
  }

  function Tag(a: Arg): (s: string)
  {
    (if a.indexed then " indexed" else "") + (if a.name != "" then " " + a.name else "")
  }

  function ArgText(a: Arg, gap: string): (s: string)
  {
    TypeText(a.typ, gap) + Tag(a)
  }

  /** The arguments separated by a comma and the gap. */
  function Joined(args: seq<Arg>, gap: string): (s: string)
  {
    if args == [] then ""
    else if |args| == 1 then ArgText(args[0], gap)
    else ArgText(args[0], gap) + "," + gap + Joined(args[1..], gap)
  }

  /** The arguments each with a gap before and a comma after it. */
  function Spread(args: seq<Arg>, gap: string): (s: string)
  {
    if args == [] then "" else gap + ArgText(args[0], gap) + "," + Spread(args[1..], gap)
  }

  lemma {:induction false} SpreadJoined(args: seq<Arg>, gap: string)
    requires args != []
    ensures Spread(args, gap) == gap + Joined(args, gap) + ","
    decreases |args|
  {
    if |args| > 1 {
      SpreadJoined(args[1..], gap);
      assert gap + ArgText(args[0], gap) + "," + (gap + Joined(args[1..], gap) + ",")
          == gap + (ArgText(args[0], gap) + "," + gap + Joined(args[1..], gap)) + ",";
    }
  }

  lemma {:induction false} SpreadConcat(p: seq<Arg>, q: seq<Arg>, gap: string)
    ensures Spread(p + q, gap) == Spread(p, gap) + Spread(q, gap)
    decreases |p|
  {
    if p == [] {
      assert p + q == q;
    } else {
      assert (p + q)[1..] == p[1..] + q;
      SpreadConcat(p[1..], q, gap);
      assert gap + ArgText(p[0], gap) + "," + (Spread(p[1..], gap) + Spread(q, gap))
          == gap + ArgText(p[0], gap) + "," + Spread(p[1..], gap) + Spread(q, gap);
    }
  }

  // ---- what the text stands for -----------------------------------------------------------

  /** The canonical form of a type: no names, no flags, no spaces. */
  function Canon(t: Type): (s: string)
  {
    match t
    case Elem(s) => s
    case TupleOf(args, arr) => "(" + Join(Canons(args), ",") + ")" + arr
  }

  function Canons(args: seq<Arg>): (r: seq<string>)
    ensures |r| == |args|
  {
    if args == [] then [] else [Canon(args[0].typ)] + Canons(args[1..])
  }

  function Flags(args: seq<Arg>): (r: seq<bool>)
    ensures |r| == |args|
  {
    if args == [] then [] else [args[0].indexed] + Flags(args[1..])
  }

  function Names(args: seq<Arg>): (r: seq<string>)
    ensures |r| == |args|
  {
    if args == [] then [] else [args[0].name] + Names(args[1..])
  }

  /** What the parser must return. */
  function Meaning(name: string, args: seq<Arg>): (sig: Signature)
  {
    Signature(name, name + "(" + Join(Canons(args), ",") + ")", Canons(args), DefaultNames(Names(args)), Flags(args),
              CountTrue(Flags(args)))
  }

  /** That is, argument by argument: its canonical type, its flag, and its name, or "arg" and its
      place counted from one; and the number of flags that are set. */
  lemma {:induction false} MeaningAt(name: string, args: seq<Arg>, i: nat)
    requires i < |args|
    ensures var sig := Meaning(name, args);
            && |sig.argTypes| == |sig.argNames| == |sig.argIndexed| == |args|
            && sig.argTypes[i] == Canon(args[i].typ) && sig.argIndexed[i] == args[i].indexed
            && sig.argNames[i] == (if args[i].name != "" then args[i].name else "arg" + Decimal(i + 1))
            && sig.numIndexed == |set j | 0 <= j < |args| && args[j].indexed|
  {
    LabelAt(args, i);
    CountsPlaces(Flags(args));
    forall j | 0 <= j < |args| ensures Flags(args)[j] == args[j].indexed {
      LabelAt(args, j);
    }
    assert (set j | 0 <= j < |args| && args[j].indexed) == (set j | 0 <= j < |Flags(args)| && Flags(args)[j]);
  }

  lemma {:induction false} LabelAt(args: seq<Arg>, i: nat)
    requires i < |args|
    ensures Canons(args)[i] == Canon(args[i].typ) && Flags(args)[i] == args[i].indexed && Names(args)[i] == args[i].name
    decreases i
  {
    if i > 0 {
      LabelAt(args[1..], i - 1);
    }
  }

  // ---- one argument and the rest ----------------------------------------------------------

  lemma {:induction false} GoodCons(a: Arg, rest: seq<Arg>)
    ensures GoodArgs([a] + rest) <==> GoodArg(a) && GoodArgs(rest)
    ensures Full([a] + rest) <==> FullType(a.typ) && Full(rest)
  {
    assert ([a] + rest)[1..] == rest;
  }

  lemma {:induction false} CanonsCons(a: Arg, rest: seq<Arg>)
    ensures Canons([a] + rest) == [Canon(a.typ)] + Canons(rest)
  {
    assert ([a] + rest)[1..] == rest;
  }

  lemma {:induction false} LabelsCons(a: Arg, rest: seq<Arg>)
    ensures Flags([a] + rest) == [a.indexed] + Flags(rest) && Names([a] + rest) == [a.name] + Names(rest)
  {
    assert ([a] + rest)[1..] == rest;
  }

  lemma {:induction false} JoinedCons(a: Arg, rest: seq<Arg>, gap: string)
    ensures Joined([a] + rest, gap) == ArgText(a, gap) + (if rest == [] then "" else "," + gap + Joined(rest, gap))
  {
    assert ([a] + rest)[1..] == rest;
  }

  lemma {:induction false} JoinCons(x: string, xs: seq<string>)
    ensures Join([x] + xs, ",") == x + (if xs == [] then "" else "," + Join(xs, ","))
  {
    assert ([x] + xs)[1..] == xs;
  }

  // ---- parentheses ------------------------------------------------------------------------

  /** The depth after s, from depth n; zero if the outermost parenthesis was closed on the way. */
  function Scan(s: string, n: nat): (m: nat)
  {
    if n == 0 || s == "" then n
    else Scan(s[1..], if s[0] == '(' then n + 1 else if s[0] == ')' then n - 1 else n)
  }

  lemma {:induction false} ScanConcat(s: string, t: string, n: nat)
    ensures Scan(s + t, n) == Scan(t, Scan(s, n))
    decreases |s|
  {
    if s == "" {
      assert s + t == t;
    } else if n > 0 {
      assert (s + t)[1..] == s[1..] + t;
      ScanConcat(s[1..], t, if s[0] == '(' then n + 1 else if s[0] == ')' then n - 1 else n);
    }
  }

  lemma {:induction false} ScanFlat(s: string, n: nat)
    requires '(' !in s && ')' !in s
    ensures Scan(s, n) == n
    decreases |s|
  {
    if s != "" {
      ScanFlat(s[1..], n);
    }
  }

  /** Text that does not close the outermost parenthesis is passed over. */
  lemma {:induction false} CloseAfter(s: string, t: string, n: nat)
    requires Scan(s, n) > 0
    ensures CloseIndex(s + t, n) == var k := CloseIndex(t, Scan(s, n)); if k < 0 then -1 else |s| + k
    decreases |s|
  {
    if s == "" {
      assert s + t == t;
    } else {
      assert (s + t)[1..] == s[1..] + t;
      CloseAfter(s[1..], t, if s[0] == '(' then n + 1 else if s[0] == ')' then n - 1 else n);
    }
  }

  lemma {:induction false} ScanCounts(s: string, n: nat)
    requires Scan(s, n) > 0
    ensures Scan(s, n) == n + Count(s, '(') - Count(s, ')')
    decreases |s|
  {
    if s != "" {
      ScanCounts(s[1..], if s[0] == '(' then n + 1 else if s[0] == ')' then n - 1 else n);
    }
  }

  lemma WordFlat(s: string)
    requires Word(s)
    ensures '(' !in s && ')' !in s && ',' !in s && ' ' !in s
  {
  }

  lemma TagFlat(a: Arg)
    requires GoodName(a.name)
    ensures '(' !in Tag(a) && ')' !in Tag(a) && ',' !in Tag(a) && ']' !in Tag(a)
  {
  }

  /** Printed arguments are balanced. */
  lemma {:induction false} ScanArg(a: Arg, gap: string, n: nat)
    requires GoodArg(a) && Spaces(gap) && n > 0
    ensures Scan(ArgText(a, gap), n) == n
    decreases a
  {
    TagFlat(a);
    ScanConcat(TypeText(a.typ, gap), Tag(a), n);
    ScanFlat(Tag(a), n);
    match a.typ
    case Elem(s) =>
      WordFlat(s);
      ScanFlat(s, n);
    case TupleOf(args, arr) =>
      ScanTuple(args, arr, gap, n);
  }

  lemma {:induction false} ScanTuple(args: seq<Arg>, arr: string, gap: string, n: nat)
    requires GoodArgs(args) && Spaces(gap) && GoodArray(arr) && n > 0
    ensures Scan("(" + Joined(args, gap) + ")" + arr, n) == n
    decreases args, 1
  {
    ScanArgs(args, gap, n + 1);
    var i := Joined(args, gap);
    ScanConcat("(" + i + ")", arr, n);
    ScanConcat("(" + i, ")", n);
    ScanConcat("(", i, n);
    assert Scan("(", n) == n + 1;
    assert Scan(")", n + 1) == n;
    WordFlat(arr);
    ScanFlat(arr, n);
  }

  lemma {:induction false} ScanArgs(args: seq<Arg>, gap: string, n: nat)
    requires GoodArgs(args) && Spaces(gap) && n > 0
    ensures Scan(Joined(args, gap), n) == n
    decreases args, 0
  {
    if args != [] {
      ScanArg(args[0], gap, n);
      if |args| > 1 {
        var p := ArgText(args[0], gap);
        ScanConcat(p + "," + gap, Joined(args[1..], gap), n);
        assert p + "," + gap == p + ("," + gap);
        ScanConcat(p, "," + gap, n);
        ScanFlat("," + gap, n);
        ScanArgs(args[1..], gap, n);
      }
    }
  }

  // ---- ends of a text ---------------------------------------------------------------------

  /** Text that neither starts nor ends with space, nor ends with a comma. */
  predicate Solid(s: string)
  {
    s != "" && Trimmed(s) && s[|s| - 1] != ','
  }

  lemma TagEnds(a: Arg)
    requires GoodName(a.name) && Tag(a) != ""
    ensures var t := Tag(a); !IsSpace(t[|t| - 1]) && t[|t| - 1] != ','
  {
    if a.name != "" {
      var n := a.name;
      assert Plain(n[|n| - 1]);
    }
  }

  lemma ArgSolid(a: Arg, gap: string)
    requires GoodArg(a)
    ensures Solid(ArgText(a, gap)) && Solid(TypeText(a.typ, gap))
  {
    var t := TypeText(a.typ, gap);
    match a.typ
    case Elem(s) =>
      assert Plain(s[0]) && Plain(s[|s| - 1]);
    case TupleOf(args, arr) =>
      assert t[0] == '(';
      assert arr != "" ==> Plain(arr[|arr| - 1]);
      assert t[|t| - 1] == if arr == "" then ')' else arr[|arr| - 1];
    if Tag(a) != "" {
      TagEnds(a);
    }
  }

  lemma {:induction false} JoinedSolid(args: seq<Arg>, gap: string)
    requires GoodArgs(args) && args != []
    ensures Solid(Joined(args, gap))
    decreases |args|
  {
    ArgSolid(args[0], gap);
    if |args| > 1 {
      JoinedSolid(args[1..], gap);
    }
  }

  lemma TrimmedConcat(s: string, t: string)
    requires (s == "" || !IsSpace(s[0])) && t != "" && Trimmed(t)
    ensures Trimmed(s + t)
  {
  }

  lemma FrontAssoc(left: string, t: string, c: string)
    ensures left + t + c == left + (t + c) + ""
  {
  }

  /** Trimming text that ends well only trims its front. */
  lemma TrimFront(b: string, c: string)
    requires c != "" && Trimmed(c)
    ensures Trim(b + c) == TrimLeft(b) + c
  {
    var left := LeftTrims(b);
    var t := TrimLeft(b);
    TrimmedConcat(t, c);
    FrontAssoc(left, t, c);
    TrimIs(left, t + c, "");
  }

  lemma TrimSolid(left: string, s: string)
    requires Solid(s) && Spaces(left)
    ensures Normal(s) == s + "," && Trim(left + s + ",") == s + "," && Trim(left + s) == s
  {
    assert s == "" + s + "";
    TrimIs("", s, "");
    assert left + s == left + s + "";
    TrimIs(left, s, "");
    assert left + s + "," == left + (s + ",") + "";
    assert (s + ",")[|s|] == ',';
    TrimIs(left, s + ",", "");
  }

  /** Normalising a joined list, or a list that has its commas already. */
  lemma NormalJoined(args: seq<Arg>, gap: string)
    requires GoodArgs(args) && args != [] && Spaces(gap)
    ensures Normal(Joined(args, gap)) == Trim(Spread(args, gap)) == Joined(args, gap) + ","
  {
    var j := Joined(args, gap);
    JoinedSolid(args, gap);
    SpreadJoined(args, gap);
    TrimSolid(gap, j);
  }

  predicate IsLead(lead: string)
  {
    lead == "" || lead == ","
  }

  lemma {:induction false} SpreadEnds(args: seq<Arg>, gap: string)
    requires args != []
    ensures var s := Spread(args, gap); s != "" && s[|s| - 1] == ','
    decreases |args|
  {
    if |args| > 1 {
      SpreadEnds(args[1..], gap);
    }
  }

  lemma CommaTrimmed(c: string)
    requires c == [',']
    ensures Trimmed(c) && c != ""
  {
    assert c[0] == ',';
  }

  lemma NormalSpread(lead: string, args: seq<Arg>, gap: string)
    requires IsLead(lead)
    ensures var x := Trim(lead + Spread(args, gap)); Normal(x) == x && (x == "" <==> lead == "" && args == [])
  {
    var w := lead + Spread(args, gap);
    if args != [] {
      SpreadEnds(args, gap);
    }
    if w != "" {
      assert w == w[..|w| - 1] + [','];
      CommaTrimmed([',']);
      TrimFront(w[..|w| - 1], [',']);
      var x := Trim(w);
      var l, r := TrimTrims(w);
      assert x == "" + x + "";
      TrimIs("", x, "");
    } else {
      assert Trim("") == "";
    }
  }

  // ---- arguments before the first tuple ---------------------------------------------------

  predicate AllElem(args: seq<Arg>)
  {
    forall i :: 0 <= i < |args| ==> args[i].typ.Elem?
  }

  lemma TwoWords(u: string, v: string)
    requires ' ' !in u && ' ' !in v
    ensures Split(u + " " + v, ' ') == [u, v]
  {
    SplitStep(u, ' ', v);
    assert Split(v, ' ') == [v];
  }

  lemma ThreeWords(u: string, v: string, w: string)
    requires ' ' !in u && ' ' !in v && ' ' !in w
    ensures Split(u + " " + v + " " + w, ' ') == [u, v, w]
  {
    TwoWords(v, w);
    assert u + " " + v + " " + w == u + " " + (v + " " + w);
    SplitStep(u, ' ', v + " " + w);
  }

  /** The words of a printed elementary argument. */
  function Words(a: Arg): (r: seq<string>)
    requires a.typ.Elem?
  {
    [a.typ.text] + (if a.indexed then ["indexed"] else []) + (if a.name != "" then [a.name] else [])
  }

  lemma WordsOfArg(a: Arg, gap: string)
    requires GoodArg(a) && a.typ.Elem?
    ensures Split(ArgText(a, gap), ' ') == Words(a)
  {
    var u, n := a.typ.text, a.name;
    WordFlat(u);
    WordFlat(n);
    if a.indexed && n != "" {
      assert ArgText(a, gap) == u + " " + "indexed" + " " + n;
      ThreeWords(u, "indexed", n);
    } else if a.indexed {
      assert ArgText(a, gap) == u + " " + "indexed";
      TwoWords(u, "indexed");
    } else if n != "" {
      assert ArgText(a, gap) == u + " " + n;
      TwoWords(u, n);
    } else {
      assert ArgText(a, gap) == u;
      assert Split(u, ' ') == [u];
    }
  }

  /** A printed elementary argument, with space before it, adds its type, flag and name. */
  lemma PieceIs(l: Left, a: Arg, gap: string)
    requires GoodArg(a) && a.typ.Elem? && Spaces(gap)
    ensures AddPiece(l, gap + ArgText(a, gap)) == Ok(Left(l.types + [a.typ.text], l.indexed + [a.indexed], l.names + [a.name]))
  {
    ArgSolid(a, gap);
    TrimSolid(gap, ArgText(a, gap));
    WordsOfArg(a, gap);
    WordsAreRead(l, a);
  }

  lemma WordsAreRead(l: Left, a: Arg)
    requires GoodArg(a) && a.typ.Elem?
    ensures AddWords(l, Words(a)) == Ok(Left(l.types + [a.typ.text], l.indexed + [a.indexed], l.names + [a.name]))
  {
    var u := a.typ.text;
    assert Plain(u[0]) && Plain(u[|u| - 1]);
    assert u == "" + u;
    TrimSolid("", u);
  }

  lemma TrimSpaced(left: string, s: string, right: string)
    requires Spaces(left) && Spaces(right)
    ensures Trim(left + s + right) == Trim(s)
  {
    var a, b := TrimTrims(s);
    var t := Trim(s);
    SpacesConcat(left, a);
    SpacesConcat(b, right);
    assert left + (a + t + b) + right == (left + a) + t + (b + right);
    TrimIs(left + a, t, b + right);
  }

  lemma SpacesConcat(s: string, t: string)
    requires Spaces(s) && Spaces(t)
    ensures Spaces(s + t)
  {
  }

  /** Space around a piece does not matter. */
  lemma PieceTrim(l: Left, left: string, piece: string, right: string)
    requires Spaces(left) && Spaces(right)
    ensures AddPiece(l, left + piece + right) == AddPiece(l, piece)
  {
    TrimSpaced(left, piece, right);
  }

  lemma SpacesFlat(s: string)
    requires Spaces(s)
    ensures ',' !in s && '(' !in s && ')' !in s
  {
  }

  lemma {:induction false} PiecesCons(l: Left, u: string, parts: seq<string>)
    ensures AddPieces(l, [u] + parts) == var m := AddPiece(l, u); if m.Err? then m else AddPieces(m.value, parts)
  {
    assert ([u] + parts)[1..] == parts;
  }

  lemma {:induction false} OnePiece(l: Left, u: string)
    requires ',' !in u
    ensures AddPieces(l, Split(u, ',')) == AddPiece(l, u)
  {
    assert Split(u, ',') == [u] == [u] + [];
    PiecesCons(l, u, []);
  }

  /** The text up to the first comma, and after it. */
  lemma {:induction false} AtComma(s: string) returns (u: string, v: string)
    requires ',' in s
    ensures s == u + [','] + v && ',' !in u
  {
    var i := Index(s, ',');
    u, v := s[..i], s[i + 1..];
  }

  lemma {:induction false} CommaPiece(l: Left, u: string, v: string)
    requires ',' !in u
    ensures AddPieces(l, Split(u + [','] + v, ','))
         == var m := AddPiece(l, u); if m.Err? then m else AddPieces(m.value, Split(v, ','))
  {
    SplitStep(u, ',', v);
    PiecesCons(l, u, Split(v, ','));
  }

  /** Nor does space around the whole list. */
  lemma {:induction false} PiecesTrimLeft(l: Left, left: string, s: string)
    requires Spaces(left)
    ensures AddPieces(l, Split(left + s, ',')) == AddPieces(l, Split(s, ','))
  {
    SpacesFlat(left);
    if ',' !in s {
      OnePiece(l, left + s);
      OnePiece(l, s);
      PieceTrimLeft(l, left, s);
    } else {
      var u, v := AtComma(s);
      PieceTrimLeft(l, left, u);
      CommaPiece(l, left + u, v);
      CommaPiece(l, u, v);
      Regroup(left, u, [','], v);
    }
  }

  lemma {:induction false} PieceTrimLeft(l: Left, left: string, s: string)
    requires Spaces(left)
    ensures AddPiece(l, left + s) == AddPiece(l, s)
  {
    assert left + s + "" == left + s;
    PieceTrim(l, left, s, "");
  }

  lemma {:induction false} PieceTrimRight(l: Left, s: string, right: string)
    requires Spaces(right)
    ensures AddPiece(l, s + right) == AddPiece(l, s)
  {
    assert "" + s + right == s + right;
    PieceTrim(l, "", s, right);
  }

  lemma {:induction false} PiecesTrimRight(l: Left, s: string, right: string)
    requires Spaces(right)
    ensures AddPieces(l, Split(s + right, ',')) == AddPieces(l, Split(s, ','))
    decreases |s|
  {
    SpacesFlat(right);
    if ',' !in s {
      OnePiece(l, s + right);
      OnePiece(l, s);
      PieceTrimRight(l, s, right);
    } else {
      var u, v := AtComma(s);
      var m := AddPiece(l, u);
      if m.Ok? {
        PiecesTrimRight(m.value, v, right);
      }
      CommaPiece(l, u, v + right);
      CommaPiece(l, u, v);
      EndAssoc(u, v, right);
    }
  }

  lemma {:induction false} EndAssoc(u: string, v: string, right: string)
    ensures u + [','] + v + right == u + [','] + (v + right)
  {
  }

  lemma PiecesTrim(s: string)
    ensures Pieces(Trim(s)) == Pieces(s)
  {
    var left, right := TrimTrims(s);
    var t := Trim(s);
    PiecesTrimRight(NO_ARGS, left + t, right);
    PiecesTrimLeft(NO_ARGS, left, t);
  }

  lemma BlankPiece(l: Left, s: string)
    requires Spaces(s)
    ensures AddPiece(l, s) == Ok(l)
  {
    assert s == s + "" + "";
    TrimIs(s, "", "");
    assert Trim("") == "";
    assert Split("", ' ') == [""];
  }

  lemma ElemFlat(a: Arg, gap: string)
    requires GoodArg(a) && a.typ.Elem? && Spaces(gap)
    ensures var u := gap + ArgText(a, gap); ',' !in u && '(' !in u
  {
    TagFlat(a);
    WordFlat(a.typ.text);
    SpacesFlat(gap);
  }

  /** Reading printed elementary arguments one by one. */
  lemma {:induction false} ElemPieces(l: Left, args: seq<Arg>, gap: string, right: string)
    requires GoodArgs(args) && AllElem(args) && Spaces(gap) && Spaces(right)
    ensures AddPieces(l, Split(Spread(args, gap) + right, ','))
         == Ok(Left(l.types + Canons(args), l.indexed + Flags(args), l.names + Names(args)))
    decreases |args|
  {
    SpacesFlat(right);
    if args == [] {
      assert Spread(args, gap) + right == right;
      OnePiece(l, right);
      BlankPiece(l, right);
      assert l == Left(l.types + [], l.indexed + [], l.names + []);
    } else {
      var a := args[0];
      var u, v := gap + ArgText(a, gap), Spread(args[1..], gap) + right;
      assert Spread(args, gap) + right == u + [','] + v;
      ElemFlat(a, gap);
      CommaPiece(l, u, v);
      PieceIs(l, a, gap);
      ElemPieces(AddPiece(l, u).value, args[1..], gap, right);
      LeftStep(l, args);
    }
  }

  lemma LeftStep(l: Left, args: seq<Arg>)
    requires args != [] && args[0].typ.Elem?
    ensures var a := args[0];
            && (l.types + [a.typ.text]) + Canons(args[1..]) == l.types + Canons(args)
            && (l.indexed + [a.indexed]) + Flags(args[1..]) == l.indexed + Flags(args)
            && (l.names + [a.name]) + Names(args[1..]) == l.names + Names(args)
  {
  }

  lemma ElemsAreRead(args: seq<Arg>, gap: string, right: string)
    requires GoodArgs(args) && AllElem(args) && Spaces(gap) && Spaces(right)
    ensures Pieces(Spread(args, gap) + right) == Ok(Left(Canons(args), Flags(args), Names(args)))
  {
    ElemPieces(NO_ARGS, args, gap, right);
    assert [] + Canons(args) == Canons(args);
    assert [] + Flags(args) == Flags(args);
    assert [] + Names(args) == Names(args);
  }

  /** The text before the first tuple, however trimmed. */
  lemma LeftIsRead(lead: string, args: seq<Arg>, gap: string, right: string)
    requires IsLead(lead) && GoodArgs(args) && AllElem(args) && Spaces(gap) && Spaces(right)
    ensures Pieces(Trim(lead + (Spread(args, gap) + right))) == Ok(Left(Canons(args), Flags(args), Names(args)))
  {
    var s := Spread(args, gap) + right;
    PiecesTrim(lead + s);
    SkipLead(lead, s);
    ElemsAreRead(args, gap, right);
  }

  lemma SkipLead(lead: string, s: string)
    requires IsLead(lead)
    ensures Pieces(lead + s) == Pieces(s)
  {
    if lead == "," {
      assert lead + s == "" + [','] + s;
      SplitStep("", ',', s);
      BlankPiece(NO_ARGS, "");
      assert ([""] + Split(s, ','))[1..] == Split(s, ',');
    } else {
      assert lead + s == s;
    }
  }

  // ---- the first tuple --------------------------------------------------------------------

  /** What follows the bracket that ends a tuple: its flag and name, and a comma if the tuple
      has anything after its parenthesis. */
  function After(a: Arg): (e: string)
    requires a.typ.TupleOf?
  {
    if a.typ.arr == "" && Tag(a) == "" then "" else Tag(a) + ","
  }

  lemma NoComma(s: string)
    requires Word(s)
    ensures TrimRight(s + ",", ',') == s && TrimRight(s, ',') == s
  {
    assert (s + ",")[..|s|] == s;
    assert s != "" ==> Plain(s[|s| - 1]);
  }

  /** Flag and name are read back. */
  lemma LabelIs(a: Arg)
    requires GoodArg(a) && a.typ.TupleOf?
    ensures Label(After(a)) == (a.indexed, a.name)
  {
    if a.indexed && a.name != "" {
      assert After(a) == " " + ("indexed" + " " + a.name) + ",";
      LabelBoth(a.name);
    } else if a.indexed {
      assert After(a) == " " + "indexed" + ",";
      KeywordWord();
      LabelOne("indexed");
    } else if a.name != "" {
      assert After(a) == " " + a.name + ",";
      LabelOne(a.name);
    } else {
      LabelNone(After(a));
    }
  }

  lemma LabelBoth(n: string)
    requires GoodName(n) && n != ""
    ensures Label(" " + ("indexed" + " " + n) + ",") == (true, n)
  {
    WordFlat(n);
    NoComma(n);
    KeywordWord();
    NoComma("indexed");
    LabelTrim("indexed" + " " + n);
    assert "indexed" + " " + n + "," == "indexed" + " " + (n + ",");
    TwoWords("indexed", n + ",");
  }

  lemma LabelOne(n: string)
    requires Word(n) && n != ""
    ensures Label(" " + n + ",") == if n == "indexed" then (true, "") else (false, n)
  {
    WordFlat(n);
    NoComma(n);
    LabelTrim(n);
    assert ' ' !in n + ",";
    assert Split(n + ",", ' ') == [n + ","];
  }

  lemma KeywordWord()
    ensures Word("indexed") && Solid("indexed")
  {
  }

  lemma LabelTrim(s: string)
    requires s != "" && Plain(s[0]) && Plain(s[|s| - 1])
    ensures Trim(" " + s + ",") == s + ","
  {
    TrimSolid(" ", s);
  }

  lemma LabelNone(e: string)
    requires e == "" || e == ","
    ensures Label(e) == (false, "")
  {
    if e == "," {
      assert e == [','];
      assert e == "" + e + "";
      TrimIs("", e, "");
      assert Split(e, ' ') == [e];
      assert e[..0] == "";
      assert TrimRight(e, ',') == "";
    } else {
      assert Trim("") == "";
      assert Split("", ' ') == [""];
    }
  }

  /** A tuple's text: what is inside, the array suffix, and what follows. */
  function Wrapped(inner: string, arr: string, e: string): (q: string)
  {
    "(" + inner + ")" + arr + e
  }

  lemma LastParen(inner: string, arr: string, e: string)
    requires GoodArray(arr) && ')' !in e
    ensures LastIndex(Wrapped(inner, arr, e), ')') == |inner| + 1
  {
    WordFlat(arr);
    assert Wrapped(inner, arr, e) == ("(" + inner) + [')'] + (arr + e);
    LastIndexIs("(" + inner, ')', arr + e);
  }

  lemma LastBracket(inner: string, arr: string, e: string)
    requires GoodArray(arr) && ']' !in e
    ensures arr == "" ==> LastIndex(Wrapped(inner, arr, e), ']') < |inner| + 1
    ensures arr != "" ==> LastIndex(Wrapped(inner, arr, e), ']') == |inner| + 1 + |arr|
  {
    var q := Wrapped(inner, arr, e);
    if arr == "" {
      assert q[|inner| + 1] == ')';
      assert forall i :: |inner| + 2 <= i < |q| ==> q[i] == e[i - |inner| - 2];
    } else {
      var n := |arr| - 1;
      assert q == ("(" + inner + ")" + arr[..n]) + [']'] + e;
      LastIndexIs("(" + inner + ")" + arr[..n], ']', e);
    }
  }

  /** The last bracket of a tuple's text is the last of its array suffix, if it has one. */
  lemma LastCloseIs(inner: string, arr: string, e: string)
    requires GoodArray(arr) && ')' !in e && ']' !in e
    ensures LastClose(Wrapped(inner, arr, e)) == |inner| + 1 + |arr|
  {
    LastParen(inner, arr, e);
    LastBracket(inner, arr, e);
  }

  lemma UnwrapIs(inner: string, arr: string)
    requires GoodArray(arr)
    ensures var q := Wrapped(inner, arr, ""); LastIndex(q, ')') >= 1 && Unwrap(q) == (inner, arr)
  {
    var q := Wrapped(inner, arr, "");
    LastParen(inner, arr, "");
    LastBracket(inner, arr, "");
    assert q[1..|inner| + 1] == inner;
    assert q[|inner| + 2..|q|] == arr;
  }

  /** The comma that ends a tuple's text belongs to it, unless nothing else follows the tuple. */
  function Rest(a: Arg, r: string): (s: string)
    requires a.typ.TupleOf?
  {
    if a.typ.arr == "" && Tag(a) == "" then "," + r else r
  }

  /** Its text and what comes after it, cut where TupleEnd cuts. */
  lemma TupleSplit(a: Arg, gap: string, r: string)
    requires a.typ.TupleOf?
    ensures var i, s := Joined(a.typ.args, gap), a.typ.arr + Tag(a);
            && ArgText(a, gap) + "," + r == "(" + i + ")" + (s + "," + r)
            && ArgText(a, gap) + "," + r == Wrapped(i, a.typ.arr, After(a)) + Rest(a, r)
            && |Wrapped(i, a.typ.arr, After(a))| == |i| + 2 + (if s == "" then 0 else |s| + 1)
  {
    var i := Joined(a.typ.args, gap);
    assert ArgText(a, gap) == "(" + i + ")" + a.typ.arr + Tag(a);
  }

  lemma Regroup(a: string, b: string, c: string, d: string)
    ensures a + (b + c + d) == a + b + c + d
  {
  }

  lemma TupleEndAt(before: string, i: string, s: string, r: string)
    requires '(' !in before && ',' !in s && CloseIndex("(" + i + ")" + (s + "," + r), 0) == |i| + 1
    ensures var x := before + ("(" + i + ")" + (s + "," + r));
            && Index(x, '(') == |before| && x[|before|] == '('
            && TupleEnd(x, |before|) == |before| + |i| + 2 + (if s == "" then 0 else |s| + 1)
  {
    var t := "(" + i + ")" + (s + "," + r);
    var x := before + t;
    OpensAt(before, i + ")" + (s + "," + r));
    Regroup("(", i, ")", s + "," + r);
    assert "(" == ['('];
    assert x[|before|..] == t;
    var rest := s + [','] + r;
    assert t[|i| + 2..] == rest;
    IndexIs(s, ',', r);
    TupleEndStep(x, |before|, t, |i| + 1, rest, |s|);
  }

  lemma TupleEndStep(x: string, a: nat, t: string, c: nat, rest: string, k: nat)
    requires a < |x| && x[a] == '(' && x[a..] == t && CloseIndex(t, 0) == c && t[c + 1..] == rest && Index(rest, ',') == k
    ensures TupleEnd(x, a) == a + c + 1 + (if k > 0 then k + 1 else 0)
  {
    assert x[a + c + 1..] == x[a..][c + 1..];
  }

  lemma OpensAt(before: string, t: string)
    requires '(' !in before
    ensures var x := before + (['('] + t); Index(x, '(') == |before| && x[|before|] == '('
  {
    assert before + (['('] + t) == before + ['('] + t;
    IndexIs(before, '(', t);
  }

  /** The tuple's text is found: it ends where the next argument begins. */
  lemma TupleEndIs(before: string, a: Arg, gap: string, r: string)
    requires GoodArg(a) && a.typ.TupleOf? && Spaces(gap) && '(' !in before
    ensures var x := before + (ArgText(a, gap) + "," + r);
            var q := Wrapped(Joined(a.typ.args, gap), a.typ.arr, After(a));
            && Index(x, '(') == |before| && x[|before|] == '(' && TupleEnd(x, |before|) == |before| + |q|
            && ArgText(a, gap) + "," + r == q + Rest(a, r)
  {
    TupleSplit(a, gap, r);
    ClosesAt(a.typ.args, gap, a.typ.arr + Tag(a) + "," + r);
    WordFlat(a.typ.arr);
    TagFlat(a);
    TupleEndAt(before, Joined(a.typ.args, gap), a.typ.arr + Tag(a), r);
  }

  /** The parenthesis that opens a tuple is closed by the one after its arguments. */
  lemma ClosesAt(args: seq<Arg>, gap: string, z: string)
    requires GoodArgs(args) && Spaces(gap)
    ensures CloseIndex("(" + Joined(args, gap) + ")" + z, 0) == |Joined(args, gap)| + 1
  {
    var i := Joined(args, gap);
    var w := "(" + i + ")" + z;
    assert w[1..] == i + (")" + z);
    ScanArgs(args, gap, 1);
    CloseAfter(i, ")" + z, 1);
    assert (")" + z)[0] == ')';
    assert CloseIndex(")" + z, 1) == 0;
  }

  /** The text is cut around the tuple into what was printed. */
  lemma CutIs(before: string, a: Arg, gap: string, r: string)
    requires GoodArg(a) && a.typ.TupleOf? && Spaces(gap) && '(' !in before
    ensures Cut(before + (ArgText(a, gap) + "," + r))
         == Ok(Cuts(Trim(before), Joined(a.typ.args, gap), a.typ.arr, a.indexed, a.name, Trim(Rest(a, r))))
  {
    var q := Wrapped(Joined(a.typ.args, gap), a.typ.arr, After(a));
    TupleEndIs(before, a, gap, r);
    TupleTrimmed(a, gap);
    AroundIs(before, a, gap, Rest(a, r));
    CutStep(before, q, Rest(a, r));
  }

  lemma CutStep(before: string, q: string, rest: string)
    requires Trim(q) == q && TupleLike(q) && Index(before + (q + rest), '(') == |before|
    requires TupleEnd(before + (q + rest), |before|) == |before| + |q|
    ensures Cut(before + (q + rest)) == Ok(CutAround(before, q, rest))
  {
    ThreeParts(before + (q + rest), before, q, rest);
    CutStepAt(before + (q + rest), |before|, |before| + |q|, before, q, rest);
  }

  lemma CutStepAt(x: string, a: nat, z: nat, before: string, q: string, rest: string)
    requires a <= z <= |x| && x[..a] == before && x[a..z] == q && x[z..] == rest && Trim(q) == q && TupleLike(q)
    requires Index(x, '(') == a && TupleEnd(x, a) == z
    ensures Cut(x) == Ok(CutAround(before, q, rest))
  {
  }

  lemma AroundIs(before: string, a: Arg, gap: string, rest: string)
    requires GoodArg(a) && a.typ.TupleOf?
    ensures var i := Joined(a.typ.args, gap); var q := Wrapped(i, a.typ.arr, After(a));
            TupleLike(q) && CutAround(before, q, rest) == Cuts(Trim(before), i, a.typ.arr, a.indexed, a.name, Trim(rest))
  {
    TupleRead(a, gap);
  }

  lemma ThreeParts(x: string, u: string, v: string, w: string)
    requires x == u + (v + w)
    ensures x[..|u|] == u && x[|u|..|u| + |v|] == v && x[|u| + |v|..] == w
  {
  }

  /** A tuple's text is taken apart. */
  lemma TupleRead(a: Arg, gap: string)
    requires GoodArg(a) && a.typ.TupleOf?
    ensures var i := Joined(a.typ.args, gap); var q := Wrapped(i, a.typ.arr, After(a)); var xx := LastClose(q);
            && xx >= 1 && Label(q[xx + 1..]) == (a.indexed, a.name)
            && LastIndex(q[..xx + 1], ')') >= 1 && Unwrap(q[..xx + 1]) == (i, a.typ.arr)
  {
    var i, arr, e := Joined(a.typ.args, gap), a.typ.arr, After(a);
    var q := Wrapped(i, arr, e);
    TagFlat(a);
    LastCloseIs(i, arr, e);
    var xx := LastClose(q);
    assert q[xx + 1..] == e && q[..xx + 1] == Wrapped(i, arr, "");
    LabelIs(a);
    UnwrapIs(i, arr);
  }

  lemma TupleTrimmed(a: Arg, gap: string)
    requires GoodArg(a) && a.typ.TupleOf?
    ensures var q := Wrapped(Joined(a.typ.args, gap), a.typ.arr, After(a)); Trim(q) == q
  {
    var q := Wrapped(Joined(a.typ.args, gap), a.typ.arr, After(a));
    assert q[0] == '(' && q[|q| - 1] == if After(a) == "" then ')' else ',';
    assert q == "" + q + "";
    TrimIs("", q, "");
  }

  // ---- grouping ---------------------------------------------------------------------------

  /** The tree stands for these arguments. */
  ghost predicate StandsFor(t: Tree, args: seq<Arg>)
  {
    && GroupTree(t, true) == Group(Join(Canons(args), ","), Canons(args), Flags(args), Names(args))
    && GroupTree(t, false).out == Join(Canons(args), ",")
  }

  lemma CanonSolid(t: Type)
    requires GoodType(t)
    ensures Canon(t) != "" && Canon(t)[|Canon(t)| - 1] != ','
  {
    match t
    case Elem(s) =>
      assert Plain(s[|s| - 1]);
    case TupleOf(args, arr) =>
      var s := Canon(t);
      assert arr != "" ==> Plain(arr[|arr| - 1]);
      assert s[|s| - 1] == if arr == "" then ')' else arr[|arr| - 1];
  }

  /** Canonical types are not empty, and their list does not end in a comma. */
  lemma {:induction false} CanonsSolid(args: seq<Arg>)
    requires GoodArgs(args)
    ensures forall i :: 0 <= i < |args| ==> Canons(args)[i] != ""
    ensures args != [] ==> var s := Join(Canons(args), ","); s != "" && s[|s| - 1] != ','
    decreases |args|
  {
    if args != [] {
      var a, rest := args[0], args[1..];
      assert args == [a] + rest;
      CanonSolid(a.typ);
      CanonsSolid(rest);
      CanonsCons(a, rest);
      JoinCons(Canon(a.typ), Canons(rest));
    }
  }

  lemma GoodElem(a: Arg)
    requires GoodArg(a) && a.typ.Elem?
    ensures Canon(a.typ) != "" && ',' !in Canon(a.typ)
  {
    WordFlat(a.typ.text);
  }

  /** Elementary types have no comma, so they survive joining and splitting. */
  lemma {:induction false} ElemCanons(args: seq<Arg>)
    requires GoodArgs(args) && AllElem(args)
    ensures forall i :: 0 <= i < |args| ==> Canons(args)[i] != "" && ',' !in Canons(args)[i]
    decreases |args|
  {
    if args != [] {
      GoodElem(args[0]);
      ElemCanons(args[1..]);
      assert forall i :: 1 <= i < |args| ==> Canons(args)[i] == Canons(args[1..])[i - 1];
    }
  }

  lemma TrimComma(s: string)
    requires s != "" && s[|s| - 1] != ','
    ensures TrimRight(s + ",", ',') == s && TrimRight(s, ',') == s
  {
    assert (s + ",")[..|s|] == s;
  }

  lemma {:induction false} CanonsConcat(p: seq<Arg>, q: seq<Arg>)
    ensures Canons(p + q) == Canons(p) + Canons(q)
    decreases |p|
  {
    if p == [] {
      assert p + q == q;
    } else {
      var a, rest := p[0], p[1..];
      assert p == [a] + rest && p + q == [a] + (rest + q);
      CanonsCons(a, rest);
      CanonsCons(a, rest + q);
      CanonsConcat(rest, q);
    }
  }

  lemma {:induction false} LabelsConcat(p: seq<Arg>, q: seq<Arg>)
    ensures Flags(p + q) == Flags(p) + Flags(q) && Names(p + q) == Names(p) + Names(q)
    decreases |p|
  {
    if p == [] {
      assert p + q == q;
    } else {
      var a, rest := p[0], p[1..];
      assert p == [a] + rest && p + q == [a] + (rest + q);
      LabelsCons(a, rest);
      LabelsCons(a, rest + q);
      LabelsConcat(rest, q);
    }
  }

  /** Without a tuple. */
  lemma {:induction false} GroupElems(args: seq<Arg>)
    requires GoodArgs(args) && AllElem(args)
    ensures StandsFor(EMPTY.(left := Join(Canons(args), ","), indexed := Flags(args), names := Names(args)), args)
  {
    var t := EMPTY.(left := Join(Canons(args), ","), indexed := Flags(args), names := Names(args));
    assert TupleType(t) == "";
    assert args + [] + [] == args && args + [] == args;
    GroupBuilt(t, args, [], []);
  }

  /** The type that stands in the middle, if there is one. */
  ghost function MidText(mid: seq<Arg>): (b: string)
  {
    if mid == [] then "" else Canon(mid[0].typ)
  }

  /** A tree that has the elementary arguments on its left, at most one in the middle, and the rest
      on its right. */
  ghost predicate BuiltFrom(t: Tree, elems: seq<Arg>, mid: seq<Arg>, rest: seq<Arg>)
  {
    && t.left == Join(Canons(elems), ",") && t.indexed == Flags(elems) && t.names == Names(elems)
    && |mid| <= 1 && TupleType(t) == MidText(mid)
    && (mid != [] ==> t.tupleIndexed == mid[0].indexed && t.tupleName == mid[0].name)
    && (t.right == None ==> rest == []) && (t.right.Some? ==> StandsFor(t.right.value, rest))
  }

  /** What grouping makes of a tuple is what pruning leaves of it. */
  lemma {:induction false} TupleTypeIs(t: Tree, a: Arg, inner: Tree)
    requires GoodArg(a) && a.typ.TupleOf? && a.typ.args != [] && t.tuple == Some(inner) && t.tupleArray == a.typ.arr
    requires StandsFor(inner, Pruned(a.typ.args))
    ensures TupleType(t) == MidText(PrunedArg(a))
  {
    var p := Pruned(a.typ.args);
    PrunedGood(a.typ.args);
    CanonsSolid(p);
    if p != [] {
      TrimComma(Join(Canons(p), ","));
    } else {
      assert "" + a.typ.arr == a.typ.arr;
    }
  }

  /** What grouping makes of the rest. */
  lemma RestIs(t: Tree, rest: seq<Arg>)
    requires GoodArgs(rest)
    requires (t.right == None ==> rest == []) && (t.right.Some? ==> StandsFor(t.right.value, rest))
    ensures var r := if t.right.Some? then GroupTree(t.right.value, true) else Group("", [], [], []);
            && r == Group(Join(Canons(rest), ","), Canons(rest), Flags(rest), Names(rest))
            && NonEmpty(r.typs) == r.typs
  {
    CanonsSolid(rest);
    NonEmptyAll(Canons(rest));
  }

  lemma {:induction false} CanonsTrim(args: seq<Arg>)
    requires GoodArgs(args) && |args| > 0
    ensures var s := Join(Canons(args), ","); s != "" && TrimRight(s + ",", ',') == s && TrimRight(s, ',') == s
  {
    CanonsSolid(args);
    var s := Join(Canons(args), ",");
    TrimComma(s);
  }

  /** A list of types, with a comma at the end if it is not empty. */
  lemma {:induction false} CommaJoin(p: seq<Arg>, q: seq<Arg>)
    requires GoodArgs(p) && GoodArgs(q)
    ensures Comma(Join(Canons(p), ",")) + Comma(Join(Canons(q), ",")) == Comma(Join(Canons(p + q), ","))
  {
    var j, k := Join(Canons(p), ","), Join(Canons(q), ",");
    if p == [] {
      assert p + q == q && "" + Comma(k) == Comma(k);
    } else if q == [] {
      assert p + q == p && Comma(j) + "" == Comma(j);
    } else {
      CanonsSolid(p);
      CanonsSolid(q);
      CanonsConcat(p, q);
      JoinConcat(Canons(p), Canons(q), ",");
      assert (j + ",") + (k + ",") == (j + "," + k) + ",";
    }
  }

  /** The text of a group is the joined types of all its parts. */
  lemma {:induction false} OutIs(elems: seq<Arg>, mid: seq<Arg>, rest: seq<Arg>)
    requires GoodArgs(elems) && GoodArgs(mid) && |mid| <= 1 && GoodArgs(rest)
    requires GoodArgs(elems + mid) && GoodArgs(elems + mid + rest)
    ensures OutText(Join(Canons(elems), ","), MidText(mid), Join(Canons(rest), ",")) == Join(Canons(elems + mid + rest), ",")
  {
    var k := Join(Canons(rest), ",");
    MidJoin(mid);
    CommaJoin(elems, mid);
    CommaJoin(elems + mid, rest);
    if rest != [] {
      CanonsTrim(rest);
    }
    assert (if k != "" then TrimRight(k, ',') + "," else "") == Comma(k);
    if elems + mid + rest != [] {
      CanonsTrim(elems + mid + rest);
    } else {
      assert TrimRight("", ',') == "";
    }
  }

  lemma {:induction false} MidJoin(mid: seq<Arg>)
    requires GoodArgs(mid) && |mid| <= 1
    ensures MidText(mid) == Join(Canons(mid), ",") && (mid != [] ==> Canons(mid) == [MidText(mid)] && MidText(mid) != "")
    ensures mid != [] ==> Flags(mid) == [mid[0].indexed] && Names(mid) == [mid[0].name]
  {
    if mid != [] {
      CanonSolid(mid[0].typ);
      assert mid[1..] == [];
      assert Canons(mid) == [Canon(mid[0].typ)] + Canons(mid[1..]);
      assert Flags(mid) == [mid[0].indexed] + Flags(mid[1..]) && Names(mid) == [mid[0].name] + Names(mid[1..]);
    }
  }

  lemma {:induction false} GroupBuilt(t: Tree, elems: seq<Arg>, mid: seq<Arg>, rest: seq<Arg>)
    requires GoodArgs(elems) && AllElem(elems) && GoodArgs(mid) && GoodArgs(rest)
    requires GoodArgs(elems + mid) && GoodArgs(elems + mid + rest) && BuiltFrom(t, elems, mid, rest)
    ensures StandsFor(t, elems + mid + rest)
  {
    RestIs(t, rest);
    ElemCanons(elems);
    TypesAgain(Canons(elems));
    OutIs(elems, mid, rest);
    MidJoin(mid);
    AllConcat(elems, mid, rest);
    GroupNode(t, Group(Join(Canons(rest), ","), Canons(rest), Flags(rest), Names(rest)), mid);
  }

  /** Grouping a tree with an argument or none in the middle and a rest that groups to r. */
  lemma {:induction false} GroupNode(t: Tree, r: Group, mid: seq<Arg>)
    requires |mid| <= 1 && TupleType(t) == MidText(mid) && (mid != [] <==> MidText(mid) != "") && NonEmpty(r.typs) == r.typs
    requires mid != [] ==> t.tupleIndexed == mid[0].indexed && t.tupleName == mid[0].name
    requires mid != [] ==> Canons(mid) == [MidText(mid)] && Flags(mid) == [mid[0].indexed] && Names(mid) == [mid[0].name]
    requires r == if t.right.Some? then GroupTree(t.right.value, true) else Group("", [], [], [])
    ensures GroupTree(t, true)
         == Group(OutText(t.left, MidText(mid), r.out), NonEmpty(Split(t.left, ',')) + Canons(mid) + r.typs,
                  t.indexed + Flags(mid) + r.indexed, t.names + Names(mid) + r.names)
    ensures GroupTree(t, false).out == OutText(t.left, MidText(mid), r.out)
  {
    if mid == [] {
      assert Canons(mid) == [] && Flags(mid) == [] && Names(mid) == [];
    }
  }

  lemma {:induction false} AllConcat(elems: seq<Arg>, mid: seq<Arg>, rest: seq<Arg>)
    ensures var args := elems + mid + rest;
            && Canons(args) == Canons(elems) + Canons(mid) + Canons(rest)
            && Flags(args) == Flags(elems) + Flags(mid) + Flags(rest)
            && Names(args) == Names(elems) + Names(mid) + Names(rest)
  {
    CanonsConcat(elems + mid, rest);
    CanonsConcat(elems, mid);
    LabelsConcat(elems + mid, rest);
    LabelsConcat(elems, mid);
  }

  // ---- parsing what was printed -----------------------------------------------------------

  /** The tree that a printed list is parsed into stands for what pruning leaves of the list. */
  ghost predicate ParsedAs(lead: string, args: seq<Arg>, gap: string)
  {
    var r := ParseNormal(Trim(lead + Spread(args, gap)));
    r.Ok? && StandsFor(r.value, Pruned(args))
  }

  lemma {:induction false} ElemsFlat(args: seq<Arg>, gap: string)
    requires GoodArgs(args) && AllElem(args) && Spaces(gap)
    ensures '(' !in Spread(args, gap)
    decreases |args|
  {
    if args != [] {
      ElemFlat(args[0], gap);
      ElemsFlat(args[1..], gap);
    }
  }

  lemma ParsedElems(lead: string, args: seq<Arg>, gap: string)
    requires IsLead(lead) && GoodArgs(args) && AllElem(args) && Spaces(gap)
    ensures ParsedAs(lead, args, gap)
  {
    var w := lead + Spread(args, gap);
    ElemsFlat(args, gap);
    TrimKeepsChars(w, '(');
    var x := Trim(w);
    assert Index(x, '(') == -1;
    assert Cut(x) == Ok(Cuts(x, "", "", false, "", ""));
    assert Spread(args, gap) + "" == Spread(args, gap);
    LeftIsRead(lead, args, gap, "");
    PrunedElems(args);
    GroupElems(args);
    NormalIs(x, Cuts(x, "", "", false, "", ""), Left(Canons(args), Flags(args), Names(args)), EMPTY, EMPTY);
  }

  /** The text before the tuple, with the space in front trimmed. */
  lemma FrontIs(lead: string, elems: seq<Arg>, gap: string)
    requires IsLead(lead) && GoodArgs(elems) && AllElem(elems) && Spaces(gap)
    ensures var b := lead + (Spread(elems, gap) + gap);
            '(' !in TrimLeft(b) && Pieces(Trim(TrimLeft(b))) == Ok(Left(Canons(elems), Flags(elems), Names(elems)))
  {
    var b := lead + (Spread(elems, gap) + gap);
    ElemsFlat(elems, gap);
    SpacesFlat(gap);
    var left := LeftTrims(b);
    var t := TrimLeft(b);
    assert forall c :: c in t ==> c in b;
    assert left + t == left + t + "";
    TrimSpaced(left, t, "");
    LeftIsRead(lead, elems, gap, gap);
  }

  lemma TupleFirst(a: Arg, gap: string, rest: seq<Arg>)
    requires a.typ.TupleOf?
    ensures var c := ArgText(a, gap) + "," + Spread(rest, gap); c != "" && Trimmed(c)
  {
    var c := ArgText(a, gap) + "," + Spread(rest, gap);
    assert ArgText(a, gap) == "(" + Joined(a.typ.args, gap) + ")" + a.typ.arr + Tag(a);
    assert c[0] == '(';
    if rest != [] {
      SpreadEnds(rest, gap);
    }
    assert c[|c| - 1] == ',';
  }

  lemma Around(lead: string, e: string, gap: string, t: string, r: string)
    ensures lead + (e + (gap + t + "," + r)) == lead + (e + gap) + (t + "," + r)
  {
  }

  lemma SpreadAround(lead: string, elems: seq<Arg>, a: Arg, rest: seq<Arg>, gap: string)
    ensures lead + Spread(elems + [a] + rest, gap)
         == lead + (Spread(elems, gap) + gap) + (ArgText(a, gap) + "," + Spread(rest, gap))
  {
    assert elems + [a] + rest == elems + ([a] + rest);
    SpreadConcat(elems, [a] + rest, gap);
    assert ([a] + rest)[1..] == rest;
    Around(lead, Spread(elems, gap), gap, ArgText(a, gap), Spread(rest, gap));
  }

  /** The text is cut into what was printed. */
  lemma CutPrinted(lead: string, elems: seq<Arg>, a: Arg, rest: seq<Arg>, gap: string)
    requires IsLead(lead) && GoodArgs(elems) && AllElem(elems) && GoodArg(a) && a.typ.TupleOf? && Spaces(gap)
    ensures var r := Cut(Trim(lead + Spread(elems + [a] + rest, gap)));
            && r.Ok? && Pieces(r.value.p1) == Ok(Left(Canons(elems), Flags(elems), Names(elems)))
            && r.value.p2 == Joined(a.typ.args, gap) && r.value.p2ar == a.typ.arr
            && r.value.p2indexed == a.indexed && r.value.p2name == a.name
            && r.value.p3 == Trim(Rest(a, Spread(rest, gap)))
  {
    var b, c := lead + (Spread(elems, gap) + gap), ArgText(a, gap) + "," + Spread(rest, gap);
    SpreadAround(lead, elems, a, rest, gap);
    TupleFirst(a, gap, rest);
    TrimFront(b, c);
    FrontIs(lead, elems, gap);
    CutIs(TrimLeft(b), a, gap, Spread(rest, gap));
  }

  lemma InnerIs(args: seq<Arg>, gap: string)
    requires GoodArgs(args) && args != [] && Spaces(gap) && ParsedAs("", args, gap)
    ensures var i := Joined(args, gap); |i| > 0 && ParseTree(i).Ok? && StandsFor(ParseTree(i).value, Pruned(args))
  {
    JoinedSolid(args, gap);
    NormalJoined(args, gap);
    assert "" + Spread(args, gap) == Spread(args, gap);
    ParseTreeIs(Joined(args, gap));
  }

  /** The text after a tuple: a comma is left over if the tuple has no suffix, flag or name. */
  function LeadOf(a: Arg): (lead: string)
    requires a.typ.TupleOf?
  {
    if a.typ.arr == "" && Tag(a) == "" then "," else ""
  }

  lemma RestParsed(a: Arg, rest: seq<Arg>, gap: string)
    requires a.typ.TupleOf? && (LeadOf(a) != "" || rest != [] ==> ParsedAs(LeadOf(a), rest, gap))
    ensures var p3 := Trim(Rest(a, Spread(rest, gap)));
            && (p3 == "" ==> rest == [])
            && (p3 != "" ==> ParseTree(p3).Ok? && StandsFor(ParseTree(p3).value, Pruned(rest)))
  {
    var lead := LeadOf(a);
    assert Rest(a, Spread(rest, gap)) == lead + Spread(rest, gap);
    NormalSpread(lead, rest, gap);
    ParseTreeIs(Trim(Rest(a, Spread(rest, gap))));
  }

  /** Putting the pieces of a normal text together. */
  lemma NormalIs(x: string, c: Cuts, l: Left, tuple: Tree, right: Tree)
    requires Cut(x) == Ok(c) && Pieces(c.p1) == Ok(l)
    requires if |c.p2| > 0 then ParseTree(c.p2) == Ok(tuple) else tuple == EMPTY
    requires if |c.p3| > 0 then ParseTree(c.p3) == Ok(right) else right == EMPTY
    ensures ParseNormal(x) == Ok(Assemble(c, l, tuple, right))
  {
  }

  /** The pieces of a printed text, put together, stand for what pruning leaves of its arguments. */
  lemma {:induction false} AssembledIs(c: Cuts, elems: seq<Arg>, a: Arg, inner: Tree, right: Tree, rest: seq<Arg>)
    requires GoodArgs(elems) && AllElem(elems) && GoodArg(a) && a.typ.TupleOf? && GoodArgs(rest)
    requires GoodArgs(elems + [a] + rest)
    requires |c.p2| > 0 <==> a.typ.args != []
    requires |c.p2| > 0 ==> StandsFor(inner, Pruned(a.typ.args))
    requires c.p2ar == a.typ.arr && c.p2indexed == a.indexed && c.p2name == a.name
    requires if |c.p3| > 0 then StandsFor(right, Pruned(rest)) else rest == []
    ensures StandsFor(Assemble(c, Left(Canons(elems), Flags(elems), Names(elems)), inner, right), Pruned(elems + [a] + rest))
  {
    var t := Assemble(c, Left(Canons(elems), Flags(elems), Names(elems)), inner, right);
    MidGood(elems, a, rest);
    PrunedAround(elems, a, rest);
    if |c.p2| > 0 {
      TupleTypeIs(t, a, inner);
    } else {
      assert TupleType(t) == "";
    }
    assert BuiltFrom(t, elems, PrunedArg(a), Pruned(rest));
    GroupBuilt(t, elems, PrunedArg(a), Pruned(rest));
  }

  lemma {:induction false} MidGood(elems: seq<Arg>, a: Arg, rest: seq<Arg>)
    requires AllElem(elems) && GoodArg(a) && GoodArgs(rest) && GoodArgs(elems + [a] + rest)
    ensures GoodArgs(PrunedArg(a)) && GoodArgs(Pruned(rest))
    ensures GoodArgs(elems + PrunedArg(a)) && GoodArgs(elems + PrunedArg(a) + Pruned(rest))
  {
    PrunedTypeGood(a.typ);
    PrunedGood(rest);
    PrunedGood(elems + [a] + rest);
    PrunedAround(elems, a, rest);
    assert PrunedArg(a) != [] ==> PrunedArg(a)[1..] == [];
    GoodPrefix(elems + PrunedArg(a), Pruned(rest));
  }

  lemma {:induction false} GoodPrefix(p: seq<Arg>, q: seq<Arg>)
    requires GoodArgs(p + q)
    ensures GoodArgs(p)
    decreases |p|
  {
    if p != [] {
      assert (p + q)[0] == p[0] && (p + q)[1..] == p[1..] + q;
      GoodPrefix(p[1..], q);
    }
  }

  lemma {:induction false} ParsedTuple(lead: string, elems: seq<Arg>, a: Arg, rest: seq<Arg>, gap: string)
    requires IsLead(lead) && GoodArgs(elems) && AllElem(elems) && GoodArg(a) && a.typ.TupleOf? && Spaces(gap)
    requires GoodArgs(rest) && GoodArgs(elems + [a] + rest)
    requires ParsedAs("", a.typ.args, gap) && (LeadOf(a) != "" || rest != [] ==> ParsedAs(LeadOf(a), rest, gap))
    ensures ParsedAs(lead, elems + [a] + rest, gap)
  {
    var x := Trim(lead + Spread(elems + [a] + rest, gap));
    CutPrinted(lead, elems, a, rest, gap);
    RestParsed(a, rest, gap);
    var inner := InsideParsed(a.typ.args, gap);
    var c := Cut(x).value;
    var right := if |c.p3| > 0 then ParseTree(c.p3).value else EMPTY;
    NormalIs(x, c, Left(Canons(elems), Flags(elems), Names(elems)), inner, right);
    AssembledIs(c, elems, a, inner, right, rest);
  }

  lemma {:induction false} InsideParsed(args: seq<Arg>, gap: string) returns (inner: Tree)
    requires GoodArgs(args) && Spaces(gap) && ParsedAs("", args, gap)
    ensures var i := Joined(args, gap);
            && (|i| > 0 <==> args != [])
            && (if |i| > 0 then ParseTree(i) == Ok(inner) && StandsFor(inner, Pruned(args)) else inner == EMPTY)
  {
    inner := EMPTY;
    if args != [] {
      InnerIs(args, gap);
      inner := ParseTree(Joined(args, gap)).value;
    }
  }

  /** The elementary arguments in front. */
  lemma {:induction false} FirstTuple(args: seq<Arg>) returns (k: nat)
    requires GoodArgs(args)
    ensures k <= |args| && GoodArgs(args[..k]) && AllElem(args[..k])
    ensures k < |args| ==> args[k].typ.TupleOf? && GoodArg(args[k]) && GoodArgs(args[k + 1..])
    decreases |args|
  {
    if args == [] || args[0].typ.TupleOf? {
      k := 0;
    } else {
      var j := FirstTuple(args[1..]);
      k := j + 1;
      assert args[..k][1..] == args[1..][..j];
      assert k < |args| ==> args[k + 1..] == args[1..][j + 1..] && args[k] == args[1..][j];
      assert forall i :: 1 <= i < k ==> args[..k][i] == args[1..][..j][i - 1];
    }
  }

  lemma TakeApart(args: seq<Arg>, k: nat)
    requires k < |args|
    ensures args == args[..k] + [args[k]] + args[k + 1..]
  {
  }

  /** Every printed list of well-formed arguments, with or without a left-over comma in front, is
      parsed into a tree that stands for what pruning leaves of it. */
  lemma {:induction false} PrintedIsParsed(lead: string, args: seq<Arg>, gap: string)
    requires IsLead(lead) && GoodArgs(args) && Spaces(gap)
    ensures ParsedAs(lead, args, gap)
    decreases args
  {
    var k := FirstTuple(args);
    if k == |args| {
      assert args[..k] == args;
      ParsedElems(lead, args, gap);
    } else {
      var a := args[k];
      PrintedIsParsed("", a.typ.args, gap);
      PrintedIsParsed(LeadOf(a), args[k + 1..], gap);
      TakeApart(args, k);
      ParsedTuple(lead, args[..k], a, args[k + 1..], gap);
    }
  }

  // ---- signatures -------------------------------------------------------------------------

  predicate GoodMethod(name: string)
  {
    Trimmed(name) && '(' !in name && ')' !in name
  }

  /** A signature as written, with gap after every comma. */
  function Printed(name: string, args: seq<Arg>, gap: string): (s: string)
  {
    name + "(" + Joined(args, gap) + ")"
  }

  /** The outer parentheses of a signature are found. */
  lemma OuterParens(name: string, i: string)
    requires '(' !in name
    ensures var s := name + "(" + i + ")";
            && Index(s, '(') == |name| && LastIndex(s, ')') == |s| - 1 && '(' in s && ')' in s
            && s[..|name|] == name && s[|name| + 1..|s| - 1] == i
  {
    var s := name + "(" + i + ")";
    assert s == name + ['('] + (i + ")");
    IndexIs(name, '(', i + ")");
    assert s == (name + "(" + i) + [')'] + "";
    LastIndexIs(name + "(" + i, ')', "");
    assert s[|name|] == '(' && s[|s| - 1] == ')';
  }

  lemma JoinedCounts(args: seq<Arg>, gap: string)
    requires GoodArgs(args) && Spaces(gap)
    ensures Count(Joined(args, gap), '(') == Count(Joined(args, gap), ')')
  {
    ScanArgs(args, gap, 1);
    ScanCounts(Joined(args, gap), 1);
  }

  lemma WrappedCounts(name: string, i: string)
    requires GoodMethod(name) && Count(i, '(') == Count(i, ')')
    ensures var s := name + "(" + i + ")"; Count(s, '(') == Count(s, ')')
  {
    CountAround(name, i, '(');
    CountAround(name, i, ')');
    assert Count("(", '(') == 1 && Count(")", '(') == 0 && Count("(", ')') == 0 && Count(")", ')') == 1;
  }

  lemma CountAround(name: string, i: string, c: char)
    requires c !in name
    ensures Count(name + "(" + i + ")", c) == Count("(", c) + Count(i, c) + Count(")", c)
  {
    CountConcat(name + "(" + i, ")", c);
    CountConcat(name + "(", i, c);
    CountConcat(name, "(", c);
  }

  lemma TrimNothing(s: string)
    requires Trimmed(s)
    ensures Trim(s) == s
  {
    assert s == "" + s + "";
    TrimIs("", s, "");
  }

  lemma ParseWrapped(name: string, i: string)
    requires GoodMethod(name) && Trimmed(i) && i != "" && Count(i, '(') == Count(i, ')')
    ensures Parse(name + "(" + i + ")") == ParseArguments(name, i)
  {
    OuterParens(name, i);
    WrappedCounts(name, i);
    TrimNothing(name);
    TrimNothing(i);
  }

  lemma ParseEmpty(name: string)
    requires GoodMethod(name)
    ensures Parse(name + "(" + "" + ")") == Ok(Signature(name, name + "()", [], [], [], 0))
  {
    OuterParens(name, "");
    WrappedCounts(name, "");
    TrimNothing(name);
    TrimNothing("");
  }

  lemma EmptySignature(name: string)
    ensures SignatureOf(name, Group("", [], [], [])) == Signature(name, name + "()", [], [], [], 0)
  {
    assert name + "(" + "" + ")" == name + "()";
    assert DefaultNames([]) == [];
    assert CountTrue([]) == 0;
  }

  /** Parsing a well-formed signature gives, for what pruning leaves of its arguments, the canonical
      form, the types in canonical form, the flags, and names or names made from the position. */
  lemma {:induction false} ParsePrinted(name: string, args: seq<Arg>, gap: string)
    requires GoodMethod(name) && GoodArgs(args) && Spaces(gap)
    ensures Parse(Printed(name, args, gap)) == Ok(Meaning(name, Pruned(args)))
  {
    if args == [] {
      ParseEmpty(name);
      EmptySignature(name);
    } else {
      JoinedSolid(args, gap);
      JoinedCounts(args, gap);
      PrintedIsParsed("", args, gap);
      InnerIs(args, gap);
      ParseWrapped(name, Joined(args, gap));
    }
  }

  // ---- exactly when nothing is lost -------------------------------------------------------

  /** Pruning makes the canonical form of a type shorter, unless there is nothing to prune. */
  lemma {:induction false} PrunedTypeShorter(t: Type)
    requires GoodType(t)
    ensures PrunedType(t) == None ==> !FullType(t)
    ensures PrunedType(t).Some? ==>
              |Canon(PrunedType(t).value)| <= |Canon(t)| && (|Canon(PrunedType(t).value)| == |Canon(t)| <==> FullType(t))
    decreases t
  {
    if t.TupleOf? && t.args != [] {
      PrunedShorter(t.args);
    }
  }

  lemma {:induction false} PrunedShorter(args: seq<Arg>)
    requires GoodArgs(args)
    ensures var n, m := |Join(Canons(Pruned(args)), ",")|, |Join(Canons(args), ",")|;
            n <= m && (n == m <==> Full(args)) && (Pruned(args) == [] && args != [] ==> !Full(args))
    decreases args
  {
    if args != [] {
      var a, rest := args[0], args[1..];
      assert args == [a] + rest;
      PrunedTypeShorter(a.typ);
      PrunedShorter(rest);
      PrunedCons(args);
      CanonSolid(a.typ);
      CanonsCons(a, rest);
      JoinCons(Canon(a.typ), Canons(rest));
      GoodCons(a, rest);
      var t := PrunedType(a.typ);
      if t.Some? {
        CanonsCons(Arg(t.value, a.indexed, a.name), Pruned(rest));
        JoinCons(Canon(t.value), Canons(Pruned(rest)));
      }
    }
  }

  /** A well-formed signature is parsed into what it says exactly if no tuple in it, at any depth,
      is empty. */
  lemma {:induction false} ParsePrintedExactly(name: string, args: seq<Arg>, gap: string)
    requires GoodMethod(name) && GoodArgs(args) && Spaces(gap)
    ensures Parse(Printed(name, args, gap)) == Ok(Meaning(name, args)) <==> Full(args)
  {
    ParsePrinted(name, args, gap);
    if Full(args) {
      PrunedGood(args);
    } else {
      PrunedShorter(args);
      SignatureLength(name, args);
      SignatureLength(name, Pruned(args));
    }
  }

  lemma {:induction false} SignatureLength(name: string, args: seq<Arg>)
    ensures |Meaning(name, args).signature| == |name| + 2 + |Join(Canons(args), ",")|
  {
  }

  // ---- the canonical form is a fixed point ------------------------------------------------

  /** Arguments without names and flags, inside tuples too. */
  function BareType(t: Type): (r: Type)
  {
    match t
    case Elem(_) => t
    case TupleOf(args, arr) => TupleOf(Bare(args), arr)
  }

  function Bare(args: seq<Arg>): (r: seq<Arg>)
    ensures |r| == |args|
  {
    if args == [] then [] else [Arg(BareType(args[0].typ), false, "")] + Bare(args[1..])
  }

  /** The text of a bare type is its canonical form, and it is well formed if the type is. */
  lemma {:induction false} BareTypeIs(t: Type)
    requires GoodType(t)
    ensures GoodType(BareType(t)) && Canon(BareType(t)) == Canon(t) && TypeText(BareType(t), "") == Canon(t)
    ensures FullType(BareType(t)) <==> FullType(t)
    decreases t
  {
    if t.TupleOf? {
      BareIs(t.args);
    }
  }

  lemma {:induction false} BareIs(args: seq<Arg>)
    requires GoodArgs(args)
    ensures GoodArgs(Bare(args)) && Canons(Bare(args)) == Canons(args) && Joined(Bare(args), "") == Join(Canons(args), ",")
    ensures Full(Bare(args)) <==> Full(args)
    decreases args
  {
    if args != [] {
      var a, rest := args[0], args[1..];
      var b := Arg(BareType(a.typ), false, "");
      assert args == [a] + rest && Bare(args) == [b] + Bare(rest);
      BareTypeIs(a.typ);
      BareIs(rest);
      GoodCons(a, rest);
      GoodCons(b, Bare(rest));
      CanonsCons(a, rest);
      CanonsCons(b, Bare(rest));
      JoinedCons(b, Bare(rest), "");
      JoinCons(Canon(a.typ), Canons(rest));
      assert Tag(b) == "" && Canon(a.typ) + "" == Canon(a.typ) && "," + "" == ",";
    }
  }

  /** The canonical signature is parsed into itself, with the same types. */
  lemma {:induction false} CanonicalIsParsed(name: string, args: seq<Arg>)
    requires GoodMethod(name) && GoodArgs(args) && Full(args)
    ensures Parse(Meaning(name, args).signature) == Ok(Meaning(name, Bare(args)))
    ensures Meaning(name, Bare(args)).signature == Meaning(name, args).signature
    ensures Meaning(name, Bare(args)).argTypes == Meaning(name, args).argTypes
  {
    BareIs(args);
    PrunedGood(Bare(args));
    ParsePrinted(name, Bare(args), "");
  }

  /** So whatever a well-formed text is parsed into, the canonical signature of that is a fixed point,
      even if empty tuples were lost on the way. */
  lemma {:induction false} CanonicalFixedPoint(name: string, args: seq<Arg>, gap: string)
    requires GoodMethod(name) && GoodArgs(args) && Spaces(gap)
    ensures var first := Parse(Printed(name, args, gap));
            first.Ok? &&
            var second := Parse(first.value.signature);
            second.Ok? && second.value.signature == first.value.signature && second.value.argTypes == first.value.argTypes
  {
    ParsePrinted(name, args, gap);
    PrunedGood(args);
    CanonicalIsParsed(name, Pruned(args));
  }

  // ---- String is parsed back --------------------------------------------------------------

  /** Arguments with bare types, and the names the parser gives them; n come before. */
  function Named(args: seq<Arg>, n: nat): (r: seq<Arg>)
    ensures |r| == |args|
  {
    if args == [] then []
    else [Arg(BareType(args[0].typ), args[0].indexed, DefaultName(args[0].name, n))] + Named(args[1..], n + 1)
  }

  lemma {:induction false} DigitsPlain(s: string)
    requires forall i :: 0 <= i < |s| ==> '0' <= s[i] <= '9'
    ensures Word(s) && ']' !in s
  {
  }

  lemma {:induction false} DefaultNameGood(name: string, n: nat)
    requires GoodName(name)
    ensures GoodName(DefaultName(name, n)) && DefaultName(name, n) != ""
  {
    if name == "" {
      var d := Decimal(n + 1);
      DigitsPlain(d);
      ArgPlain(d);
    }
  }

  lemma {:induction false} ArgPlain(d: string)
    requires Word(d) && ']' !in d
    ensures GoodName("arg" + d)
  {
    assert ("arg" + d)[0] == 'a';
  }

  lemma {:induction false} NamedGood(args: seq<Arg>, n: nat)
    requires GoodArgs(args)
    ensures GoodArgs(Named(args, n)) && Canons(Named(args, n)) == Canons(args) && Flags(Named(args, n)) == Flags(args)
    ensures Full(Named(args, n)) <==> Full(args)
    decreases |args|
  {
    if args != [] {
      var a, rest := args[0], args[1..];
      var b := Arg(BareType(a.typ), a.indexed, DefaultName(a.name, n));
      assert args == [a] + rest && Named(args, n) == [b] + Named(rest, n + 1);
      BareTypeIs(a.typ);
      DefaultNameGood(a.name, n);
      NamedGood(rest, n + 1);
      GoodCons(a, rest);
      GoodCons(b, Named(rest, n + 1));
      CanonsCons(a, rest);
      CanonsCons(b, Named(rest, n + 1));
      LabelsCons(a, rest);
      LabelsCons(b, Named(rest, n + 1));
    }
  }

  lemma {:induction false} NamedNames(args: seq<Arg>, n: nat, i: nat)
    requires GoodArgs(args) && i < |args|
    ensures Names(Named(args, n))[i] == DefaultName(Names(args)[i], n + i) != ""
    decreases |args|
  {
    if i > 0 {
      NamedNames(args[1..], n + 1, i - 1);
    } else {
      DefaultNameGood(args[0].name, n);
    }
  }

  lemma NamedMeaning(name: string, args: seq<Arg>)
    requires GoodArgs(args)
    ensures Meaning(name, Named(args, 0)) == Meaning(name, args)
  {
    NamedGood(args, 0);
    var a, b := DefaultNames(Names(Named(args, 0))), DefaultNames(Names(args));
    forall i | 0 <= i < |args| ensures a[i] == b[i] {
      NamedNames(args, 0, i);
    }
    assert a == b;
  }

  /** The names the parser gives the arguments; n come before. */
  ghost predicate NamesAre(args: seq<Arg>, n: nat, names: seq<string>)
  {
    |names| == |args| && forall i :: 0 <= i < |args| ==> names[i] == DefaultName(Names(args)[i], n + i)
  }

  lemma NamesStep(args: seq<Arg>, n: nat, names: seq<string>)
    requires NamesAre(args, n, names) && args != []
    ensures names[0] == DefaultName(args[0].name, n) && NamesAre(args[1..], n + 1, names[1..])
  {
    forall i | 0 <= i < |args| - 1 ensures names[1..][i] == DefaultName(Names(args[1..])[i], n + 1 + i) {
      assert names[1..][i] == names[i + 1] && Names(args)[i + 1] == Names(args[1..])[i];
    }
  }

  /** Printing canonical types with flags and names prints the named arguments. */
  lemma {:induction false} NamedText(args: seq<Arg>, n: nat, names: seq<string>)
    requires GoodArgs(args) && NamesAre(args, n, names)
    ensures Joined(Named(args, n), "") == Join(PrintArgs(Canons(args), Flags(args), names), ",")
    decreases |args|
  {
    if args != [] {
      NamesStep(args, n, names);
      NamedText(args[1..], n + 1, names[1..]);
      PrintStep(args, names);
      NamedArgText(args[0], n);
      JoinStep(Named(args, n), PrintArgs(Canons(args), Flags(args), names));
    }
  }

  lemma JoinStep(args: seq<Arg>, parts: seq<string>)
    requires |args| == |parts| > 0 && ArgText(args[0], "") == parts[0] && Joined(args[1..], "") == Join(parts[1..], ",")
    ensures Joined(args, "") == Join(parts, ",")
  {
    assert "," + "" == ",";
  }

  lemma NamedArgText(a: Arg, n: nat)
    requires GoodArg(a)
    ensures var name := DefaultName(a.name, n);
            ArgText(Arg(BareType(a.typ), a.indexed, name), "") == PrintArg(Canon(a.typ), a.indexed, name)
  {
    BareTypeIs(a.typ);
  }

  lemma PrintStep(args: seq<Arg>, names: seq<string>)
    requires args != [] && |names| == |args|
    ensures PrintArgs(Canons(args), Flags(args), names)
         == [PrintArg(Canon(args[0].typ), args[0].indexed, names[0])] + PrintArgs(Canons(args[1..]), Flags(args[1..]), names[1..])
  {
    assert Canons(args)[1..] == Canons(args[1..]);
    assert Flags(args)[1..] == Flags(args[1..]);
    PrintCons(Canons(args), Flags(args), names);
  }

  lemma PrintCons(types: seq<string>, flags: seq<bool>, names: seq<string>)
    requires |types| == |flags| == |names| > 0
    ensures PrintArgs(types, flags, names) == [PrintArg(types[0], flags[0], names[0])] + PrintArgs(types[1..], flags[1..], names[1..])
  {
  }

  lemma {:induction false} StringIsParsed(name: string, args: seq<Arg>)
    requires GoodMethod(name) && GoodArgs(args) && Full(args)
    ensures Parse(StringText(Meaning(name, args))) == Ok(Meaning(name, args))
  {
    NamedGood(args, 0);
    NamedMeaning(name, args);
    NamedText(args, 0, DefaultNames(Names(args)));
    PrunedGood(Named(args, 0));
    ParsePrinted(name, Named(args, 0), "");
  }

  /** Whatever a well-formed text is parsed into, String prints it as a text that is parsed into the
      same signature. */
  lemma {:induction false} StringIsParsedBack(name: string, args: seq<Arg>, gap: string)
    requires GoodMethod(name) && GoodArgs(args) && Spaces(gap)
    ensures var first := Parse(Printed(name, args, gap));
            first.Ok? && Consistent(first.value) && Parse(StringText(first.value)) == first
  {
    ParsedLengths(Printed(name, args, gap));
    ParsePrinted(name, args, gap);
    PrunedGood(args);
    StringIsParsed(name, Pruned(args));
  }

  /** The same for the methods: parse, print and parse again. */
  method ParsePrintParse(name: string, args: seq<Arg>, gap: string) returns (first: Result<Signature, Error>, second: Result<Signature, Error>)
    requires GoodMethod(name) && GoodArgs(args) && Spaces(gap)
    ensures first == second == Ok(Meaning(name, Pruned(args)))
    ensures first == Ok(Meaning(name, args)) <==> Full(args)
  {
    first := ParseABISignature(Printed(name, args, gap));
    ParsePrintedExactly(name, args, gap);
    ParsePrinted(name, args, gap);
    StringIsParsedBack(name, args, gap);
    var text := StringOf(first.value);
    second := ParseABISignature(text);
  }
}

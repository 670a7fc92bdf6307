/** The configuration message: the JSON document a set of parameters stands for, and the code
    that prints it piece by piece. */
module ConfigMessage {
  import opened Bytes
  import opened JsmnSpec
  import opened JsonShapes
  import opened JsonTree
  import opened JsonBuffer
  import opened Numbers

  /** A value of one of the three types that are modelled. */
  datatype Data = I32(value: int) | U32(value: int) | Str(text: string)

  datatype Param = Param(name: string, data: Data)

  predicate InRange(v: int) {
    -0x8000_0000 <= v < 0x8000_0000
  }

  /** Names and strings that need no escaping: they may stand between quotes as they are. */
  predicate Plain(p: Param) {
    && ValidBody(p.name)
    && match p.data
       case I32(v) => InRange(v)
       case U32(v) => 0 <= v < 0x1_0000_0000
       case Str(s) => ValidBody(s)
  }

  predicate AllPlain(ps: seq<Param>) {
    forall i :: 0 <= i < |ps| ==> Plain(ps[i])
  }

  /** No NUL inside: a C string. */
  predicate IsC(p: Param) {
    NoNul(p.name) && (p.data.Str? ==> NoNul(p.data.text))
  }

  lemma {:induction false} BodyIsC(b: string)
    requires ValidBody(b)
    ensures NoNul(b)
    decreases |b|
  {
    if b != [] {
      var n := if b[0] != '\\' then 1 else if b[1] == 'u' then 6 else 2;
      BodyIsC(b[n..]);
      assert b == b[..n] + b[n..];
    }
  }

  lemma PlainIsC(p: Param)
    requires Plain(p)
    ensures IsC(p)
  {
    BodyIsC(p.name);
    if p.data.Str? {
      BodyIsC(p.data.text);
    }
  }

  // ---------- The document ----------

  function TypeName(d: Data): string {
    match d
    case I32(_) => "i32"
    case U32(_) => "u32"
    case Str(_) => "str"
  }

  function ValueTree(d: Data): Value {
    match d
    case I32(v) => Word(Signed(v))
    case U32(v) => Word(Signed(v))
    case Str(s) => Text(s)
  }

  /** {"t": type, "v": value} */
  function ParamTree(d: Data): Value {
    Dict("", Pair("t", Text(TypeName(d)), Pair("v", ValueTree(d), NoMembers)))
  }

  function ParamMembers(ps: seq<Param>): Members {
    if ps == [] then NoMembers else Pair(ps[0].name, ParamTree(ps[0].data), ParamMembers(ps[1..]))
  }

  /** {"cfg": {name: {...}, ...}, "cid": number} */
  function Doc(ps: seq<Param>, cid: int): Value {
    Dict("", Pair("cfg", Dict("", ParamMembers(ps)), Pair("cid", Word(Signed(cid)), NoMembers)))
  }

  lemma {:induction false} ParamsValid(ps: seq<Param>)
    requires AllPlain(ps)
    ensures ValidMembers(ParamMembers(ps))
  {
    hide ValidBody, Valid, ValidMembers, ParamTree, Pair;
    if ps != [] {
      assert Plain(ps[0]);
      ParamValid(ps[0]);
      ParamsValid(ps[1..]);
      PairShape(ps[0].name, ParamTree(ps[0].data), ParamMembers(ps[1..]));
    } else {
      NothingValid();
    }
  }

  lemma LeafValid(d: Data)
    requires d.Str? ==> ValidBody(d.text)
    ensures Valid(ValueTree(d)) && Valid(Text(TypeName(d)))
  {
    hide Signed, ValidWord;
    if !d.Str? {
      SignedIsWord(d.value);
    }
    ThreeLetters(TypeName(d));
  }

  lemma ParamValid(p: Param)
    requires Plain(p)
    ensures Valid(ParamTree(p.data))
  {
    hide ValidBody, Valid, ValidMembers, Pair, ValueTree, TypeName;
    var d := p.data;
    var inner := Pair("v", ValueTree(d), NoMembers);
    LeafValid(d);
    Letter('t', "t");
    Letter('v', "v");
    NothingValid();
    PairShape("v", ValueTree(d), NoMembers);
    PairShape("t", Text(TypeName(d)), inner);
    DictShape(Pair("t", Text(TypeName(d)), inner));
  }

  lemma DocValid(ps: seq<Param>, cid: int)
    requires AllPlain(ps)
    ensures Valid(Doc(ps, cid))
  {
    hide ValidBody, Valid, ValidMembers, Pair, ParamMembers, Signed;
    ParamsValid(ps);
    ThreeLetters("cfg");
    ThreeLetters("cid");
    NothingValid();
    var number := Word(Signed(cid));
    assert Valid(number) by {
      LeafValid(I32(cid));
    }
    var rest := Pair("cid", number, NoMembers);
    PairShape("cid", number, NoMembers);
    DictShape(ParamMembers(ps));
    PairShape("cfg", Dict("", ParamMembers(ps)), rest);
    DictShape(Pair("cfg", Dict("", ParamMembers(ps)), rest));
  }

  // ---------- The pieces that are printed ----------

  function NamePiece(p: Param): string {
    "\"" + p.name + "\":{"
  }

  function DataPiece(d: Data): string {
    match d
    case I32(v) => "\"t\":\"i32\",\"v\":" + Signed(v) + "},"
    case U32(v) => "\"t\":\"u32\",\"v\":" + Signed(v) + "},"
    case Str(s) => "\"t\":\"str\",\"v\":\"" + s + "\"},"
  }

  function Pieces(ps: seq<Param>): string {
    if ps == [] then "" else NamePiece(ps[0]) + DataPiece(ps[0].data) + Pieces(ps[1..])
  }

  lemma {:induction false} PiecesAppend(ps: seq<Param>, p: Param)
    ensures Pieces(ps + [p]) == Pieces(ps) + (NamePiece(p) + DataPiece(p.data))
  {
    hide NamePiece, DataPiece;
    if ps == [] {
      assert [p][1..] == [];
      assert ps + [p] == [p];
    } else {
      assert (ps + [p])[1..] == ps[1..] + [p];
      PiecesAppend(ps[1..], p);
    }
  }

  lemma DataIsTree(d: Data)
    ensures "{" + DataPiece(d) == Print(ParamTree(d)) + ","
  {
    hide Print, PrintMembers, Pair;
    var inner := Pair("v", ValueTree(d), NoMembers);
    PairShape("v", ValueTree(d), NoMembers);
    PairShape("t", Text(TypeName(d)), inner);
    DictShape(Pair("t", Text(TypeName(d)), inner));
    PairIsMember("v", ValueTree(d), NoMembers);
    LeafPrints(d);
    Regroup("{", "\"t\":", Quoted(TypeName(d)), ",", "\"v\":", Print(ValueTree(d)), "}");
    KeysPrint();
  }

  lemma KeysPrint()
    ensures Quoted("t") + ":" == "\"t\":" && Quoted("v") + ":" == "\"v\":"
    ensures ",\"v\":" == "," + "\"v\":" && "}," == "}" + ","
  {
  }

  lemma Regroup(a: string, b: string, c: string, d: string, e: string, f: string, g: string)
    ensures a + (b + c + (d + (e + f + g))) + d == a + (b + c + (d + e) + f + (g + d))
  {
    assert d + (e + f + g) == d + e + f + g;
    assert b + c + (d + e + f + g) == b + c + (d + e) + f + g;
    assert b + c + (d + e) + f + g + d == b + c + (d + e) + f + (g + d);
  }

  lemma LeafPrints(d: Data)
    ensures Print(Text(TypeName(d))) == Quoted(TypeName(d))
    ensures DataPiece(d) == "\"t\":" + Quoted(TypeName(d)) + ",\"v\":" + Print(ValueTree(d)) + "},"
  {
    hide Signed;
  }

  /** The pieces are the members of the document, each followed by a comma. */
  lemma {:induction false} PiecesAreMembers(ps: seq<Param>)
    requires ps != []
    ensures Pieces(ps) != [] && Pieces(ps)[|Pieces(ps)| - 1] == ','
    ensures DropComma(Pieces(ps)) + "}" == PrintMembers(ParamMembers(ps))
  {
    hide Print, ParamTree, DataPiece, NamePiece, PrintMembers, Pair, Quoted;
    var d := ps[0].data;
    var head := Quoted(ps[0].name) + ":" + Print(ParamTree(d));
    PieceIs(ps[0]);
    PairShape(ps[0].name, ParamTree(d), ParamMembers(ps[1..]));
    var more := Pieces(ps[1..]);
    assert Pieces(ps) == head + "," + more;
    if |ps| == 1 {
      assert ps[1..] == [];
      assert Pieces(ps) == head + ",";
    } else {
      PiecesAreMembers(ps[1..]);
      PairIsMember(ps[1].name, ParamTree(ps[1].data), ParamMembers(ps[1..][1..]));
      assert DropComma(Pieces(ps)) == head + "," + DropComma(more);
      assert head + "," + DropComma(more) + "}" == head + ("," + (DropComma(more) + "}"));
    }
  }

  lemma PieceIs(p: Param)
    ensures NamePiece(p) + DataPiece(p.data) == Quoted(p.name) + ":" + Print(ParamTree(p.data)) + ","
  {
    hide Print, DataPiece, ParamTree;
    DataIsTree(p.data);
    assert NamePiece(p) + DataPiece(p.data) == Quoted(p.name) + ":" + ("{" + DataPiece(p.data));
  }

  const FRONT := "{\"cfg\":{"

  function CidPiece(cid: int): string {
    "\"cid\":" + Signed(cid) + ","
  }

  /** The pieces, trailing commas replaced by brackets, are the document. */
  lemma MessageIsDoc(ps: seq<Param>, cid: int)
    requires ps != []
    ensures DropComma(DropComma(FRONT + Pieces(ps)) + "}," + CidPiece(cid)) + "}" == Print(Doc(ps, cid))
    ensures |FRONT + Pieces(ps)| < |Print(Doc(ps, cid))|
    ensures |DropComma(FRONT + Pieces(ps)) + "}," + CidPiece(cid)| == |Print(Doc(ps, cid))|
  {
    hide Pieces, ParamMembers, Signed, Print, PrintMembers, Pair;
    PiecesAreMembers(ps);
    var inner := PrintMembers(ParamMembers(ps));
    assert DropComma(FRONT + Pieces(ps)) + "}" == FRONT + inner;
    assert DropComma(FRONT + Pieces(ps)) + "}," == FRONT + inner + ",";
    var t := FRONT + inner + "," + CidPiece(cid);
    assert DropComma(t) == FRONT + inner + "," + ("\"cid\":" + Signed(cid));
    DocPrints(ps, cid);
    assert FRONT + inner + "," + ("\"cid\":" + Signed(cid)) + "}" == FRONT + inner + ("," + ("\"cid\":" + Signed(cid) + "}"));
  }

  lemma DocPrints(ps: seq<Param>, cid: int)
    ensures Print(Doc(ps, cid)) == FRONT + PrintMembers(ParamMembers(ps)) + ("," + ("\"cid\":" + Signed(cid) + "}"))
  {
    hide ParamMembers, Signed, Print, PrintMembers, Pair;
    var inner := PrintMembers(ParamMembers(ps));
    var number := Word(Signed(cid));
    var rest := Pair("cid", number, NoMembers);
    PairShape("cid", number, NoMembers);
    PairIsMember("cid", number, NoMembers);
    DictShape(ParamMembers(ps));
    PairShape("cfg", Dict("", ParamMembers(ps)), rest);
    DictShape(Pair("cfg", Dict("", ParamMembers(ps)), rest));
    WordPrints(Signed(cid));
    assert Quoted("cid") == "\"cid\"" && Quoted("cfg") == "\"cfg\"";
    var tail := "," + ("\"cid\":" + Signed(cid) + "}");
    assert "{" + ("\"cfg\"" + ":" + ("{" + inner) + tail) == FRONT + inner + tail;
  }

  /** One parameter of each type, as it is printed. */
  lemma DataTexts()
    ensures Print(ParamTree(I32(-5))) == "{\"t\":\"i32\",\"v\":-5}"
    ensures Print(ParamTree(U32(7))) == "{\"t\":\"u32\",\"v\":7}"
    ensures Print(ParamTree(Str("x"))) == "{\"t\":\"str\",\"v\":\"x\"}"
  {
    hide Print, Signed;
    DataIsTree(I32(-5));
    DataIsTree(U32(7));
    DataIsTree(Str("x"));
    SmallNumbers();
    CommaLast(Print(ParamTree(I32(-5))), "{\"t\":\"i32\",\"v\":-5}");
    CommaLast(Print(ParamTree(U32(7))), "{\"t\":\"u32\",\"v\":7}");
    CommaLast(Print(ParamTree(Str("x"))), "{\"t\":\"str\",\"v\":\"x\"}");
  }

  lemma CommaLast(a: string, b: string)
    ensures a + "," == b + "," ==> a == b
  {
    if a + "," == b + "," {
      assert a == (a + ",")[..|a|] && b == (b + ",")[..|b|];
    }
  }

  /** A whole message. */
  lemma DocText()
    ensures Print(Doc([Param("a", I32(-5))], 9)) == "{\"cfg\":{\"a\":" + "{\"t\":\"i32\",\"v\":-5}" + "},\"cid\":9}"
  {
    hide Print, PrintMembers, Pair, Signed, Pieces, ParamTree;
    var ps := [Param("a", I32(-5))];
    DataTexts();
    SmallNumbers();
    DocPrints(ps, 9);
    PairShape("a", ParamTree(I32(-5)), ParamMembers(ps[1..]));
    assert ps[1..] == [];
    var inner := "{\"t\":\"i32\",\"v\":-5}";
    assert PrintMembers(ParamMembers(ps)) == "\"a\":" + inner + "}";
    assert FRONT + ("\"a\":" + inner + "}") + ("," + ("\"cid\":" + "9" + "}"))
           == "{\"cfg\":{\"a\":" + inner + "},\"cid\":9}";
  }

  lemma PiecesStep(ps: seq<Param>)
    requires ps != []
    ensures Pieces(ps) == NamePiece(ps[0]) + DataPiece(ps[0].data) + Pieces(ps[1..])
  {
  }

  lemma SmallNumbers()
    ensures Signed(-5) == "-5" && Signed(7) == "7" && Signed(9) == "9"
  {
  }

  // ---------- The encoder ----------

  lemma CutTwice(a: string, b: string, c: string)
    ensures Cut(Cut(a + b) + c) == Cut(a + (b + c))
  {
    assert a + b + c == a + (b + c);
  }

  method AddParam(b: Buffer, p: Param) returns (ret: int)
    requires b.Valid() && IsC(p)
    modifies b.buf
    ensures b.Valid() && ret == 0 && b.Text() == Cut(old(b.Text()) + (NamePiece(p) + DataPiece(p.data)))
  {
    hide Signed, CString;
    CutTwice(b.Text(), NamePiece(p), DataPiece(p.data));
    var rc := b.Append(NamePiece(p));
    match p.data {
      case I32(v) =>
        SignedShape(v);
        rc := b.Append("\"t\":\"i32\",\"v\":" + Signed(v) + "},");
      case U32(v) =>
        SignedShape(v);
        rc := b.Append("\"t\":\"u32\",\"v\":" + Signed(v) + "},");
      case Str(s) =>
        rc := b.Append("\"t\":\"str\",\"v\":\"" + s + "\"},");
    }
    ret := 0;
  }

  /** The parameters before the first null pointer. */
  function Given(tab: seq<Option<Param>>): (ps: seq<Param>)
    ensures |ps| <= |tab| && forall i :: 0 <= i < |ps| ==> tab[i] == Some(ps[i])
    ensures |ps| < |tab| ==> tab[|ps|] == None
  {
    if tab == [] || tab[0] == None then [] else [tab[0].value] + Given(tab[1..])
  }

  lemma {:induction false} PrefixFits(ps: seq<Param>, i: nat)
    requires i <= |ps|
    ensures |Pieces(ps[..i])| <= |Pieces(ps)|
    decreases |ps| - i
  {
    hide NamePiece, DataPiece;
    if i < |ps| {
      PrefixFits(ps, i + 1);
      assert ps[..i + 1] == ps[..i] + [ps[i]];
      PiecesAppend(ps[..i], ps[i]);
    } else {
      assert ps[..i] == ps;
    }
  }

  lemma OnePieceMore(front: string, ps: seq<Param>, i: nat)
    requires i < |ps| && |front + Pieces(ps)| < SIZE
    ensures var t := front + Pieces(ps[..i]) + (NamePiece(ps[i]) + DataPiece(ps[i].data));
            t == front + Pieces(ps[..i + 1]) && Cut(t) == t
  {
    hide NamePiece, DataPiece, Pieces;
    PiecesAppend(ps[..i], ps[i]);
    assert ps[..i + 1] == ps[..i] + [ps[i]];
    PrefixFits(ps, i + 1);
  }

  /** The loop over the parameters. */
  method AddParams(b: Buffer, tab: seq<Option<Param>>) returns (ret: int)
    requires b.Valid() && forall i :: 0 <= i < |tab| && tab[i].Some? ==> IsC(tab[i].value)
    requires |b.Text() + Pieces(Given(tab))| < SIZE
    modifies b.buf
    ensures b.Valid() && ret == 0 && b.Text() == old(b.Text()) + Pieces(Given(tab))
  {
    hide Pieces, CString, NamePiece, DataPiece, Given, Cut, IsC;
    ret := 0;
    ghost var ps, front := Given(tab), b.Text();
    var i := 0;
    assert ps[..0] == [] && front + "" == front;
    NoPieces();
    while i < |tab|
      invariant 0 <= i <= |ps| && ret == 0
      invariant b.Valid() && b.Text() == front + Pieces(ps[..i])
      decreases |tab| - i
    {
      if tab[i] == None {
        break;
      }
      OnePieceMore(front, ps, i);
      ret := AddParam(b, tab[i].value);
      if ret != 0 {
        break;
      }
      i := i + 1;
    }
    assert ps[..i] == ps;
  }

  lemma NoPieces()
    ensures Pieces([]) == ""
  {
  }

  lemma Fits(t: string)
    requires |t| < SIZE
    ensures Cut(t) == t
  {
  }

  lemma FrontIs()
    ensures Cut("{\"" + "cfg" + "\":{") == FRONT && |FRONT| == 8
    ensures NoNul("cfg") && NoNul("cid") && |"cfg"| + 5 != SIZE
  {
  }

  /** The message for a set of parameters: refused without correlation id or first parameter,
      otherwise exactly the printed document. */
  method EncodeParamsUpdate(b: Buffer, cid: int, tab: seq<Option<Param>>) returns (ok: bool)
    requires b.Valid() && forall i :: 0 <= i < |tab| && tab[i].Some? ==> IsC(tab[i].value)
    requires |Print(Doc(Given(tab), cid))| < SIZE
    modifies b.buf
    ensures ok <==> cid != 0 && tab != [] && tab[0].Some?
    ensures if ok then b.Valid() && b.Text() == Print(Doc(Given(tab), cid)) else b.buf[..] == old(b.buf[..])
  {
    hide Pieces, CString, Print, Doc, CidPiece, IsC, Cut, DropComma, NoNul, Signed;
    ok := false;
    if cid == 0 {
      return;
    }
    if |tab| == 0 || tab[0] == None {
      return;
    }
    ghost var ps := Given(tab);
    MessageIsDoc(ps, cid);
    FrontIs();
    var ret := b.BeginSection("cfg");
    if ret == 0 {
      ret := AddParams(b, tab);
    }
    ghost var t1 := DropComma(FRONT + Pieces(ps)) + "},";
    ghost var t2 := t1 + CidPiece(cid);
    assert b.Text() == FRONT + Pieces(ps) && |t1| < SIZE && |t2| < SIZE;
    if ret == 0 {
      ret := b.AddSectionEnd();
    }
    Fits(t1);
    if ret == 0 {
      ret := b.AddNameInt("cid", cid);
    }
    CidIs(cid);
    CidEnds(cid);
    Fits(t2);
    DropLess(t2);
    if ret == 0 {
      ret := b.End();
    }
    ok := ret == 0;
  }

  lemma DropLess(t: string)
    requires t != [] && t[|t| - 1] == ','
    ensures |DropComma(t)| == |t| - 1
  {
  }

  lemma CidEnds(cid: int)
    ensures CidPiece(cid) != [] && CidPiece(cid)[|CidPiece(cid)| - 1] == ','
  {
    hide Signed;
  }

  lemma CidIs(cid: int)
    ensures CidPiece(cid) == "\"" + "cid" + "\":" + Signed(cid) + ","
  {
    hide Signed;
  }
}

/**
 * The COLLADA grammar: a header `<?...?>` in front of an element, open tags with
 * attributes, children and a closing tag, self-closing tags, runs of numbers and text.
 *
 * The productions that contain elements take the element parser `rec` as a parameter;
 * `ColladaP` ties the knot by handing them itself, restricted to shorter inputs.
 */
module ColladaGrammar {
  import opened Base
  import opened ParserCore
  import opened ParserPrimitives
  import opened ParserNumbers

  /** An attribute `name="..."`: its value read as an integer when it is one, as text otherwise. */
  datatype TagParameter = ParameterString(name: string, text: string) | ParameterInt(name: string, number: int)

  /** The document tree. */
  datatype Collada =
    | ColladaNone
    | ColladaHeader(body: Collada)
    | ColladaString(text: string)
    | ColladaFloats(values: seq<Decimal>)
    | ColladaTag(tag: string, params: seq<TagParameter>, children: seq<Collada>)
    | ColladaTagClosed(tag: string, params: seq<TagParameter>)

  /** Optional whitespace. */
  function OptWs(): (p: Parser<()>)
    ensures NoGrowth(p)
  {
    ProgressNoGrowth(Ws());
    MaybeKeeps(Ws(), ());
    Maybe(Ws(), ())
  }

  /** Text up to the next `<` is a string node; no text at all is the empty node. */
  function TextNode(t: string): Collada {
    if t == "" then ColladaNone else ColladaString(t)
  }

  /** Everything up to the next `<` (or the end), as a text node. */
  function StringP(): (p: Parser<Collada>)
    ensures NoGrowth(p)
  {
    MapKeeps(Until('<'), TextNode);
    Map(Until('<'), TextNode)
  }

  /** Numbers in scientific notation separated by whitespace. */
  function FloatRunP(): (p: Parser<seq<Decimal>>)
    ensures Progress(p)
  {
    ProgressNoGrowth(Ws());
    ManyDelim(Scientific(), Ws())
  }

  function FloatsNode(t: (seq<Decimal>, ())): Collada {
    ColladaFloats(t.0)
  }

  /** A run of numbers that must be followed immediately by `<`, which it leaves in place. */
  function FloatsP(): (p: Parser<Collada>)
    ensures Progress(p)
  {
    AndKeeps(FloatRunP(), Lookahead("<"));
    MapKeeps(And(FloatRunP(), Lookahead("<")), FloatsNode);
    Map(And(FloatRunP(), Lookahead("<")), FloatsNode)
  }

  /** Everything up to `=`, then `="`. */
  function AttributeNameP(): (p: Parser<(string, string)>)
    ensures Progress(p)
  {
    TokenProgress("=\"");
    AndKeeps(Until('='), Token("=\""));
    And(Until('='), Token("=\""))
  }

  function IntParamNode(t: (((string, string), int), string)): TagParameter {
    ParameterInt(t.0.0.0, t.0.1)
  }

  function StrParamNode(t: (((string, string), string), string)): TagParameter {
    ParameterString(t.0.0.0, t.0.1)
  }

  /** `name="` an integer `"`. */
  function ParamIntP(): (p: Parser<TagParameter>)
    ensures Progress(p)
  {
    ProgressNoGrowth(Integer());
    AndKeeps(AttributeNameP(), Integer());
    AndKeeps(And(AttributeNameP(), Integer()), Token("\""));
    MapKeeps(And(And(AttributeNameP(), Integer()), Token("\"")), IntParamNode);
    Map(And(And(AttributeNameP(), Integer()), Token("\"")), IntParamNode)
  }

  /** `name="` any text up to the next `"` `"`. */
  function ParamStrP(): (p: Parser<TagParameter>)
    ensures Progress(p)
  {
    AndKeeps(AttributeNameP(), Until('"'));
    AndKeeps(And(AttributeNameP(), Until('"')), Token("\""));
    MapKeeps(And(And(AttributeNameP(), Until('"')), Token("\"")), StrParamNode);
    Map(And(And(AttributeNameP(), Until('"')), Token("\"")), StrParamNode)
  }

  /** Attribute names may not contain `/`, `>` or `<`. */
  predicate BadName(n: string) {
    '/' in n || '>' in n || '<' in n
  }

  /** The integer form first, then the text form; either is refused when its name is bad. */
  function ParamP(): (p: Parser<TagParameter>)
    ensures Progress(p)
  {
    OrKeeps(ParamIntP(), ParamStrP());
    s => match Or(ParamIntP(), ParamStrP())(s)
         case None => None
         case Some((rest, a)) => if BadName(a.name) then None else Some((rest, a))
  }

  /** A tag name: everything up to the first of `stops`, refused when it holds a `/`. */
  function NameBefore(stops: seq<char>): (p: Parser<string>)
    ensures NoGrowth(p)
  {
    var u := UntilAny(stops);
    assert NoGrowth(u);
    s => match u(s)
         case None => None
         case Some((rest, r)) => if '/' in r then None else Some((rest, r))
  }

  /** The name of an open tag ends at `>` or a space. */
  function IdentifierP(): (p: Parser<string>)
    ensures NoGrowth(p)
  {
    NameBefore(['>', ' '])
  }

  /** The name of a self-closing tag ends at `/` or a space. */
  function ClosedIdentifierP(): (p: Parser<string>)
    ensures NoGrowth(p)
  {
    NameBefore(['/', ' '])
  }

  /** Whitespace-separated attributes, or none at all. */
  function ParamsP(): (p: Parser<seq<TagParameter>>)
    ensures NoGrowth(p)
  {
    ProgressNoGrowth(Ws());
    ProgressNoGrowth(ManyDelim(ParamP(), Ws()));
    MaybeKeeps(ManyDelim(ParamP(), Ws()), []);
    Maybe(ManyDelim(ParamP(), Ws()), [])
  }

  type Head = (string, ((), seq<TagParameter>))

  /** A tag name read by `name`, optional whitespace and the attributes. */
  function HeadP(name: Parser<string>): (p: Parser<Head>)
    requires NoGrowth(name)
    ensures NoGrowth(p)
  {
    AndKeeps(OptWs(), ParamsP());
    AndKeeps(name, And(OptWs(), ParamsP()));
    And(name, And(OptWs(), ParamsP()))
  }

  /** `<` and the head of a tag. */
  function OpenP(name: Parser<string>): (p: Parser<(string, Head)>)
    requires NoGrowth(name)
    ensures Progress(p)
  {
    TokenProgress("<");
    AndKeeps(Token("<"), HeadP(name));
    And(Token("<"), HeadP(name))
  }

  function Single(c: Collada): seq<Collada> {
    [c]
  }

  /** Elements separated by optional whitespace; else one number run; else one text node. */
  function ChildrenP(rec: Parser<Collada>): (p: Parser<seq<Collada>>)
    requires Progress(rec)
    ensures NoGrowth(p)
  {
    ProgressNoGrowth(ManyDelim(rec, OptWs()));
    MapKeeps(FloatsP(), Single);
    ProgressNoGrowth(Map(FloatsP(), Single));
    MapKeeps(StringP(), Single);
    OrKeeps(Map(FloatsP(), Single), Map(StringP(), Single));
    OrKeeps(ManyDelim(rec, OptWs()), Or(Map(FloatsP(), Single), Map(StringP(), Single)));
    Or(ManyDelim(rec, OptWs()), Or(Map(FloatsP(), Single), Map(StringP(), Single)))
  }

  type Body = (((), seq<Collada>), ())

  /** The content of an open tag, with optional whitespace around it. */
  function BodyP(rec: Parser<Collada>): (p: Parser<Body>)
    requires Progress(rec)
    ensures NoGrowth(p)
  {
    AndKeeps(OptWs(), ChildrenP(rec));
    AndKeeps(And(OptWs(), ChildrenP(rec)), OptWs());
    And(And(OptWs(), ChildrenP(rec)), OptWs())
  }

  type TagParts = (((((string, Head), string), Body), string), string)

  /** The tree node of an open tag: its name, its attributes and its children. */
  function TagNode(t: (TagParts, string)): Collada {
    ColladaTag(t.0.0.0.0.0.1.0, t.0.0.0.0.0.1.1.1, t.0.0.0.1.0.1)
  }

  /** `<`, head, `>`, body, `</`, any name, `>`. */
  function TagPartsP(rec: Parser<Collada>): (p: Parser<TagParts>)
    requires Progress(rec)
    ensures Progress(p)
  {
    AndKeeps(OpenP(IdentifierP()), Token(">"));
    AndKeeps(And(OpenP(IdentifierP()), Token(">")), BodyP(rec));
    AndKeeps(And(And(OpenP(IdentifierP()), Token(">")), BodyP(rec)), Token("</"));
    AndKeeps(And(And(And(OpenP(IdentifierP()), Token(">")), BodyP(rec)), Token("</")), Until('>'));
    And(And(And(And(OpenP(IdentifierP()), Token(">")), BodyP(rec)), Token("</")), Until('>'))
  }

  /** An open tag with its content and its closing tag. */
  function TagP(rec: Parser<Collada>): (p: Parser<Collada>)
    requires Progress(rec)
    ensures Progress(p)
  {
    AndKeeps(TagPartsP(rec), Token(">"));
    MapKeeps(And(TagPartsP(rec), Token(">")), TagNode);
    Map(And(TagPartsP(rec), Token(">")), TagNode)
  }

  function ClosedNode(t: ((string, Head), string)): Collada {
    ColladaTagClosed(t.0.1.0, t.0.1.1.1)
  }

  /** `<`, head, `/>`. */
  function TagClosedP(): (p: Parser<Collada>)
    ensures Progress(p)
  {
    AndKeeps(OpenP(ClosedIdentifierP()), Token("/>"));
    MapKeeps(And(OpenP(ClosedIdentifierP()), Token("/>")), ClosedNode);
    Map(And(OpenP(ClosedIdentifierP()), Token("/>")), ClosedNode)
  }

  type Prolog = (((string, string), string), ())

  /** `<?`, anything up to `?`, `?>` and optional whitespace. */
  function PrologP(): (p: Parser<Prolog>)
    ensures Progress(p)
  {
    TokenProgress("<?");
    AndKeeps(Token("<?"), Until('?'));
    AndKeeps(And(Token("<?"), Until('?')), Token("?>"));
    AndKeeps(And(And(Token("<?"), Until('?')), Token("?>")), OptWs());
    And(And(And(Token("<?"), Until('?')), Token("?>")), OptWs())
  }

  function HeaderNode(t: (Prolog, Collada)): Collada {
    ColladaHeader(t.1)
  }

  /** The prolog in front of an element. */
  function HeaderP(rec: Parser<Collada>): (p: Parser<Collada>)
    requires Progress(rec)
    ensures Progress(p)
  {
    ProgressNoGrowth(rec);
    AndKeeps(PrologP(), rec);
    MapKeeps(And(PrologP(), rec), HeaderNode);
    Map(And(PrologP(), rec), HeaderNode)
  }

  /** An element, trying a header, then an open tag, then a self-closing tag. */
  function Element(rec: Parser<Collada>): (p: Parser<Collada>)
    requires Progress(rec)
    ensures Progress(p)
  {
    OrKeeps(HeaderP(rec), TagP(rec));
    OrKeeps(Or(HeaderP(rec), TagP(rec)), TagClosedP());
    Or(Or(HeaderP(rec), TagP(rec)), TagClosedP())
  }

  /** The element parser restricted to inputs shorter than `n`; it fails on all others. */
  function Below(n: nat): (p: Parser<Collada>)
    decreases n, 0
    ensures Progress(p)
  {
    t => if |t| < n then ColladaP(t) else None
  }

  /** The element parser, which uses itself for nested elements. */
  function ColladaP(s: string): (r: Option<(string, Collada)>)
    decreases |s|, 1
    ensures r.Some? ==> |r.value.0| < |s|
  {
    Element(Below(|s|))(s)
  }

  /** Each production leaves a suffix of its input, given that nested elements do. */
  lemma OptWsSound()
    ensures Sound(OptWs())
  {
    WsSound();
    MaybeKeeps(Ws(), ());
  }

  lemma FloatsSound()
    ensures Sound(FloatsP())
  {
    ScientificSound();
    WsSound();
    ManyDelimKeeps(Scientific(), Ws());
    LookaheadSound("<");
    AndKeeps(FloatRunP(), Lookahead("<"));
    MapKeeps(And(FloatRunP(), Lookahead("<")), FloatsNode);
  }

  lemma ParamSound()
    ensures Sound(ParamP())
  {
    UntilSound('=');
    TokenSound("=\"");
    TokenSound("\"");
    UntilSound('"');
    IntegerSound();
    AndKeeps(Until('='), Token("=\""));
    AndKeeps(AttributeNameP(), Integer());
    AndKeeps(And(AttributeNameP(), Integer()), Token("\""));
    MapKeeps(And(And(AttributeNameP(), Integer()), Token("\"")), IntParamNode);
    AndKeeps(AttributeNameP(), Until('"'));
    AndKeeps(And(AttributeNameP(), Until('"')), Token("\""));
    MapKeeps(And(And(AttributeNameP(), Until('"')), Token("\"")), StrParamNode);
    OrKeeps(ParamIntP(), ParamStrP());
  }

  lemma NameSound(stops: seq<char>)
    ensures Sound(NameBefore(stops))
  {
    UntilAnySound(stops);
  }

  lemma HeadSound(name: Parser<string>)
    requires NoGrowth(name) && Sound(name)
    ensures Sound(HeadP(name))
  {
    OptWsSound();
    ParamSound();
    WsSound();
    ManyDelimKeeps(ParamP(), Ws());
    MaybeKeeps(ManyDelim(ParamP(), Ws()), []);
    AndKeeps(OptWs(), ParamsP());
    AndKeeps(name, And(OptWs(), ParamsP()));
  }

  lemma OpenSound(name: Parser<string>)
    requires NoGrowth(name) && Sound(name)
    ensures Sound(OpenP(name))
  {
    TokenSound("<");
    HeadSound(name);
    AndKeeps(Token("<"), HeadP(name));
  }

  lemma BodySound(rec: Parser<Collada>)
    requires Progress(rec) && Sound(rec)
    ensures Sound(BodyP(rec))
  {
    OptWsSound();
    FloatsSound();
    UntilSound('<');
    MapKeeps(Until('<'), TextNode);
    ManyDelimKeeps(rec, OptWs());
    MapKeeps(FloatsP(), Single);
    MapKeeps(StringP(), Single);
    OrKeeps(Map(FloatsP(), Single), Map(StringP(), Single));
    OrKeeps(ManyDelim(rec, OptWs()), Or(Map(FloatsP(), Single), Map(StringP(), Single)));
    AndKeeps(OptWs(), ChildrenP(rec));
    AndKeeps(And(OptWs(), ChildrenP(rec)), OptWs());
  }

  lemma TagSound(rec: Parser<Collada>)
    requires Progress(rec) && Sound(rec)
    ensures Sound(TagP(rec))
  {
    NameSound(['>', ' ']);
    OpenSound(IdentifierP());
    BodySound(rec);
    TokenSound(">");
    TokenSound("</");
    UntilSound('>');
    AndKeeps(OpenP(IdentifierP()), Token(">"));
    AndKeeps(And(OpenP(IdentifierP()), Token(">")), BodyP(rec));
    AndKeeps(And(And(OpenP(IdentifierP()), Token(">")), BodyP(rec)), Token("</"));
    AndKeeps(And(And(And(OpenP(IdentifierP()), Token(">")), BodyP(rec)), Token("</")), Until('>'));
    AndKeeps(TagPartsP(rec), Token(">"));
    MapKeeps(And(TagPartsP(rec), Token(">")), TagNode);
  }

  lemma TagClosedSound()
    ensures Sound(TagClosedP())
  {
    NameSound(['/', ' ']);
    OpenSound(ClosedIdentifierP());
    TokenSound("/>");
    AndKeeps(OpenP(ClosedIdentifierP()), Token("/>"));
    MapKeeps(And(OpenP(ClosedIdentifierP()), Token("/>")), ClosedNode);
  }

  lemma HeaderSound(rec: Parser<Collada>)
    requires Progress(rec) && Sound(rec)
    ensures Sound(HeaderP(rec))
  {
    TokenSound("<?");
    UntilSound('?');
    TokenSound("?>");
    OptWsSound();
    AndKeeps(Token("<?"), Until('?'));
    AndKeeps(And(Token("<?"), Until('?')), Token("?>"));
    AndKeeps(And(And(Token("<?"), Until('?')), Token("?>")), OptWs());
    AndKeeps(PrologP(), rec);
    MapKeeps(And(PrologP(), rec), HeaderNode);
  }

  lemma ElementSound(rec: Parser<Collada>)
    requires Progress(rec) && Sound(rec)
    ensures Sound(Element(rec))
  {
    HeaderSound(rec);
    TagSound(rec);
    TagClosedSound();
    OrKeeps(HeaderP(rec), TagP(rec));
    OrKeeps(Or(HeaderP(rec), TagP(rec)), TagClosedP());
  }

  /** What is left after a document element is always a suffix of the input. */
  lemma {:induction false} ColladaSuffix(s: string)
    decreases |s|
    ensures ColladaP(s).Some? ==> IsSuffix(ColladaP(s).value.0, s)
  {
    forall t | |t| < |s|
      ensures ColladaP(t).Some? ==> IsSuffix(ColladaP(t).value.0, t)
    {
      ColladaSuffix(t);
    }
    BelowSound(|s|);
    ElementSound(Below(|s|));
    SoundAt(Element(Below(|s|)), s);
  }

  /** The restricted parser is sound when the document parser is sound below the bound. */
  lemma BelowSound(n: nat)
    requires forall t :: |t| < n ==> (ColladaP(t).Some? ==> IsSuffix(ColladaP(t).value.0, t))
    ensures Sound(Below(n))
  {
    forall t
      ensures Below(n)(t).Some? ==> IsSuffix(Below(n)(t).value.0, t)
    {
      if |t| < n {
        assert Below(n)(t) == ColladaP(t);
      }
    }
  }

  /** The element parser handed to a production matters only on inputs shorter than its own. */
  lemma ChildrenLocal(r1: Parser<Collada>, r2: Parser<Collada>, s: string)
    requires Progress(r1) && Progress(r2) && AgreeBelow(r1, r2, |s| + 1)
    ensures ChildrenP(r1)(s) == ChildrenP(r2)(s)
  {
    ManyDelimLocal(r1, r2, OptWs(), s);
  }

  lemma BodyLocal(r1: Parser<Collada>, r2: Parser<Collada>, s: string)
    requires Progress(r1) && Progress(r2) && AgreeBelow(r1, r2, |s| + 1)
    ensures BodyP(r1)(s) == BodyP(r2)(s)
  {
    MaybeTotal(Ws(), (), s);
    var u := OptWs()(s).value.0;
    ChildrenLocal(r1, r2, u);
    AndRightCongruent(OptWs(), ChildrenP(r1), ChildrenP(r2), s);
    AndLeftCongruent(And(OptWs(), ChildrenP(r1)), And(OptWs(), ChildrenP(r2)), OptWs(), s);
  }

  lemma TagLocal(r1: Parser<Collada>, r2: Parser<Collada>, s: string)
    requires Progress(r1) && Progress(r2) && AgreeBelow(r1, r2, |s|)
    ensures TagP(r1)(s) == TagP(r2)(s)
  {
    var open := And(OpenP(IdentifierP()), Token(">"));
    AndKeeps(OpenP(IdentifierP()), Token(">"));
    match open(s) {
      case None =>
      case Some((v, _)) =>
        BodyLocal(r1, r2, v);
    }
    AndRightCongruent(open, BodyP(r1), BodyP(r2), s);
    AndLeftCongruent(And(open, BodyP(r1)), And(open, BodyP(r2)), Token("</"), s);
    AndLeftCongruent(And(And(open, BodyP(r1)), Token("</")), And(And(open, BodyP(r2)), Token("</")), Until('>'), s);
    AndLeftCongruent(TagPartsP(r1), TagPartsP(r2), Token(">"), s);
    MapCongruent(And(TagPartsP(r1), Token(">")), And(TagPartsP(r2), Token(">")), TagNode, s);
  }

  lemma HeaderLocal(r1: Parser<Collada>, r2: Parser<Collada>, s: string)
    requires Progress(r1) && Progress(r2) && AgreeBelow(r1, r2, |s|)
    ensures HeaderP(r1)(s) == HeaderP(r2)(s)
  {
    match PrologP()(s)
    case None =>
    case Some((u, _)) =>
      assert r1(u) == r2(u);
  }

  lemma ElementLocal(r1: Parser<Collada>, r2: Parser<Collada>, s: string)
    requires Progress(r1) && Progress(r2) && AgreeBelow(r1, r2, |s|)
    ensures Element(r1)(s) == Element(r2)(s)
  {
    HeaderLocal(r1, r2, s);
    TagLocal(r1, r2, s);
  }

  /**
   * The restriction to shorter inputs never cuts anything off: `ColladaP` is exactly the
   * element grammar with `ColladaP` itself for every nested element.
   */
  lemma ColladaUnfolds(s: string)
    ensures Progress(ColladaP)
    ensures ColladaP(s) == Element(ColladaP)(s)
  {
    assert Progress(ColladaP);
    ElementLocal(Below(|s|), ColladaP, s);
  }

  // The literal texts read by the lemmas below, regrouped around the part each parser takes.

  lemma AttributeText(n: string, u: string)
    ensures n + "=\"" + u == n + ['='] + ("\"" + u)
    ensures ['='] + ("\"" + u) == "=\"" + u
  {
    assert n + "=\"" + u == n + ("=\"" + u);
  }

  lemma SelfClosingText(n: string, t: string)
    ensures "<" + n + "/>" + t == "<" + (n + "/" + ['>'] + t)
  {
    assert "<" + n + "/>" + t == "<" + (n + "/>" + t);
    assert n + "/>" + t == n + "/" + ['>'] + t;
  }

  lemma ClosingText(b: string, t: string)
    ensures "<" + ("/" + b + ">" + t) == "</" + b + ">" + t
    ensures "</" + b + ">" + t == "</" + (b + ['>'] + t)
    ensures [] + ['/'] + (b + ">" + t) == "/" + b + ">" + t
    ensures !("<?" <= "<" + ("/" + b + ">" + t))
  {
    assert ("<" + ("/" + b + ">" + t))[1] == '/';
    assert "/" + b + ">" + t == "/" + (b + ">" + t);
    assert "</" + b + ">" + t == "</" + (b + ">" + t);
  }

  lemma EmptyTagText(a: string, b: string, t: string)
    ensures "<" + a + "></" + b + ">" + t == "<" + (a + ['>'] + ("</" + b + ">" + t))
    ensures '?' !in a ==> !("<?" <= "<" + (a + ['>'] + ("</" + b + ">" + t)))
  {
    var s := "<" + (a + ['>'] + ("</" + b + ">" + t));
    assert s[1] == if |a| > 0 then a[0] else '>';
    assert "<" + a + "></" + b + ">" + t == "<" + (a + ("></" + b + ">" + t));
    assert "></" + b + ">" + t == ['>'] + ("</" + b + ">" + t);
  }

  lemma PrologText(h: string, u: string)
    ensures "<?" + h + "?>" + u == "<?" + (h + ['?'] + (">" + u))
    ensures ['?'] + (">" + u) == "?>" + u
  {
    assert "<?" + h + "?>" + u == "<?" + (h + ("?>" + u));
  }

  lemma QuotedText(n: string, v: string, t: string)
    ensures n + "=\"" + v + "\"" + t == n + "=\"" + (v + "\"" + t)
    ensures n + "=\"" + v + "\"" + t == n + "=\"" + (v + ("\"" + t))
    ensures v + "\"" + t == v + ['"'] + t
  {
  }

  /** A name free of `=` followed by `="` is read as the attribute name. */
  lemma AttributeNameOf(n: string, u: string)
    requires '=' !in n
    ensures AttributeNameP()(n + "=\"" + u) == Some((u, (n, "=\"")))
  {
    var s := n + "=\"" + u;
    UntilThen('=', n, "\"" + u);
    AttributeText(n, u);
    TokenThen("=\"", u);
    AndStep(Until('='), Token("=\""), s, "=\"" + u, n, u, "=\"");
  }

  /** An attribute whose quoted value is a digit run becomes an integer attribute. */
  lemma IntAttribute(n: string, d: string, t: string)
    requires '=' !in n && !BadName(n) && Digits(d)
    ensures ParamP()(n + "=\"" + d + "\"" + t) == Some((t, ParameterInt(n, DecimalValue(DigitValues(d)))))
  {
    var s := n + "=\"" + d + "\"" + t;
    var u := d + ("\"" + t);
    var k := DecimalValue(DigitValues(d));
    QuotedText(n, d, t);
    AttributeNameOf(n, u);
    IntegerOfDigits(d, "\"" + t);
    TokenThen("\"", t);
    AndStep(AttributeNameP(), Integer(), s, u, (n, "=\""), "\"" + t, k);
    AndStep(And(AttributeNameP(), Integer()), Token("\""), s, "\"" + t, ((n, "=\""), k), t, "\"");
    MapStep(And(And(AttributeNameP(), Integer()), Token("\"")), IntParamNode, s, t, (((n, "=\""), k), "\""));
    OrFirstSuccess(ParamIntP(), ParamStrP(), s);
  }

  /** Regrouping the text of a quoted value that starts with a minus sign. */
  lemma MinusQuotedText(n: string, d: string, t: string)
    ensures n + "=\"" + ("-" + d) + "\"" + t == n + "=\"" + ("-" + (d + ("\"" + t)))
  {
    QuotedText(n, "-" + d, t);
    assert ("-" + d) + ("\"" + t) == "-" + (d + ("\"" + t));
  }

  /** An attribute whose quoted value is a minus sign and a digit run becomes a negative integer attribute. */
  lemma NegativeIntAttribute(n: string, d: string, t: string)
    requires '=' !in n && !BadName(n) && Digits(d)
    ensures ParamP()(n + "=\"" + ("-" + d) + "\"" + t) == Some((t, ParameterInt(n, NegativeValue(d))))
  {
    NegativeNameAndInteger(n, d, t);
    ClosedIntAttribute(n, "-" + d, t, NegativeValue(d));
  }

  /** Once the name and the integer are read, the closing quote completes an integer attribute. */
  lemma ClosedIntAttribute(n: string, v: string, t: string, k: int)
    requires !BadName(n)
    requires And(AttributeNameP(), Integer())(n + "=\"" + v + "\"" + t) == Some(("\"" + t, ((n, "=\""), k)))
    ensures ParamP()(n + "=\"" + v + "\"" + t) == Some((t, ParameterInt(n, k)))
  {
    var s := n + "=\"" + v + "\"" + t;
    TokenThen("\"", t);
    AndStep(And(AttributeNameP(), Integer()), Token("\""), s, "\"" + t, ((n, "=\""), k), t, "\"");
    MapStep(And(And(AttributeNameP(), Integer()), Token("\"")), IntParamNode, s, t, (((n, "=\""), k), "\""));
    OrFirstSuccess(ParamIntP(), ParamStrP(), s);
  }

  /** The name and a negative integer are read, leaving the closing quote. */
  lemma NegativeNameAndInteger(n: string, d: string, t: string)
    requires '=' !in n && Digits(d)
    ensures And(AttributeNameP(), Integer())(n + "=\"" + ("-" + d) + "\"" + t) ==
      Some(("\"" + t, ((n, "=\""), NegativeValue(d))))
  {
    QuoteFirst(t);
    IntegerOfNegative(d, "\"" + t);
    MinusQuotedText(n, d, t);
    AttributeNameOf(n, "-" + (d + ("\"" + t)));
  }

  /**
   * The integer form refuses a quoted value that is not an integer literal: reading the
   * integer fails, or stops short of the closing quote.
   */
  lemma IntFormFails(n: string, v: string, t: string)
    requires '=' !in n && '"' !in v && !IsIntegerText(v)
    ensures ParamIntP()(n + "=\"" + v + "\"" + t).None?
  {
    var s := n + "=\"" + v + "\"" + t;
    var u := v + ("\"" + t);
    QuotedText(n, v, t);
    AttributeNameOf(n, u);
    IntegerStopsInside(v, t);
    if Integer()(u).None? {
      AndSecondFails(AttributeNameP(), Integer(), s, u, (n, "=\""));
      AndFirstFails(And(AttributeNameP(), Integer()), Token("\""), s);
    } else {
      var r := Integer()(u).value;
      AndStep(AttributeNameP(), Integer(), s, u, (n, "=\""), r.0, r.1);
      AndSecondFails(And(AttributeNameP(), Integer()), Token("\""), s, r.0, ((n, "=\""), r.1));
    }
    MapFails(And(And(AttributeNameP(), Integer()), Token("\"")), IntParamNode, s);
  }

  /** An attribute whose quoted value is not an integer literal: the text form reads it. */
  lemma TextAttribute(n: string, v: string, t: string)
    requires '=' !in n && !BadName(n) && '"' !in v && !IsIntegerText(v)
    ensures ParamP()(n + "=\"" + v + "\"" + t) == Some((t, ParameterString(n, v)))
  {
    var s := n + "=\"" + v + "\"" + t;
    var u := v + "\"" + t;
    QuotedText(n, v, t);
    AttributeNameOf(n, u);
    IntFormFails(n, v, t);
    UntilThen('"', v, t);
    TokenThen("\"", t);
    AndStep(AttributeNameP(), Until('"'), s, u, (n, "=\""), "\"" + t, v);
    AndStep(And(AttributeNameP(), Until('"')), Token("\""), s, "\"" + t, ((n, "=\""), v), t, "\"");
    MapStep(And(And(AttributeNameP(), Until('"')), Token("\"")), StrParamNode, s, t, (((n, "=\""), v), "\""));
    OrFirstSuccess(ParamIntP(), ParamStrP(), s);
  }

  /** Either form of attribute takes its name from the text before `="`. */
  lemma ParamName(s: string)
    requires Or(ParamIntP(), ParamStrP())(s).Some?
    ensures AttributeNameP()(s).Some?
    ensures Or(ParamIntP(), ParamStrP())(s).value.1.name == AttributeNameP()(s).value.1.0
  {
    OrFirstSuccess(ParamIntP(), ParamStrP(), s);
    if ParamIntP()(s).Some? {
      MapParts(And(And(AttributeNameP(), Integer()), Token("\"")), IntParamNode, s);
      AndParts(And(AttributeNameP(), Integer()), Token("\""), s);
      AndParts(AttributeNameP(), Integer(), s);
    } else {
      MapParts(And(And(AttributeNameP(), Until('"')), Token("\"")), StrParamNode, s);
      AndParts(And(AttributeNameP(), Until('"')), Token("\""), s);
      AndParts(AttributeNameP(), Until('"'), s);
    }
  }

  /** An attribute whose name contains `/`, `>` or `<` is refused in either form. */
  lemma BadAttributeRefused(n: string, u: string)
    requires '=' !in n && BadName(n)
    ensures ParamP()(n + "=\"" + u).None?
  {
    var s := n + "=\"" + u;
    AttributeNameOf(n, u);
    if Or(ParamIntP(), ParamStrP())(s).Some? {
      ParamName(s);
    }
  }

  /** An attribute starts with its name followed by `="`. */
  lemma AttributeNameSplits(u: string)
    requires AttributeNameP()(u).Some?
    ensures u == AttributeNameP()(u).value.1.0 + "=\"" + AttributeNameP()(u).value.0
  {
    AndParts(Until('='), Token("=\""), u);
    UntilSpec('=', u);
    TokenSpec("=\"", Until('=')(u).value.0);
  }

  /** No attribute starts with `/` or `>`: its name would contain that character. */
  lemma NoAttributeAt(u: string)
    requires |u| > 0 && (u[0] == '/' || u[0] == '>')
    ensures ParamP()(u).None?
  {
    if Or(ParamIntP(), ParamStrP())(u).Some? {
      ParamName(u);
      AttributeNameSplits(u);
      var name := AttributeNameP()(u).value.1.0;
      AttributeStart(name, AttributeNameP()(u).value.0, u[0]);
      BadNameRefused(u);
    }
  }

  /** An attribute text starting with `c` has a name starting with `c`, unless `c` is `=`. */
  lemma AttributeStart(name: string, rest: string, c: char)
    requires |name + "=\"" + rest| > 0 && (name + "=\"" + rest)[0] == c && c != '='
    ensures c in name
  {
    assert (name + "=\"" + rest)[0] == if |name| > 0 then name[0] else '=';
  }

  /** Whatever attribute the two forms read, it is refused when its name is bad. */
  lemma BadNameRefused(u: string)
    requires Or(ParamIntP(), ParamStrP())(u).Some? && BadName(Or(ParamIntP(), ParamStrP())(u).value.1.name)
    ensures ParamP()(u).None?
  {
  }

  /** In front of `/` or `>` the attribute list is empty and consumes nothing. */
  lemma NoParams(u: string)
    requires |u| > 0 && (u[0] == '/' || u[0] == '>')
    ensures ParamsP()(u) == Some((u, []))
  {
    NoAttributeAt(u);
    ProgressNoGrowth(Ws());
    ManyDelimSpec(ParamP(), Ws(), u);
    MaybeTotal(ManyDelim(ParamP(), Ws()), [], u);
  }

  /** Optional whitespace in front of something else consumes nothing. */
  lemma NoWs(u: string)
    requires |u| > 0 && !IsWhitespace(u[0])
    ensures OptWs()(u) == Some((u, ()))
  {
    WsSpec(u);
    MaybeTotal(Ws(), (), u);
  }

  /** A tag name directly followed by `/` or `>` has no attributes. */
  lemma BareOpen(name: Parser<string>, u: string, n: string, v: string)
    requires NoGrowth(name) && name(u) == Some((v, n))
    requires |v| > 0 && (v[0] == '/' || v[0] == '>')
    ensures OpenP(name)("<" + u) == Some((v, ("<", (n, ((), [])))))
  {
    NoWs(v);
    NoParams(v);
    AndStep(OptWs(), ParamsP(), v, v, (), v, []);
    AndStep(name, And(OptWs(), ParamsP()), u, v, n, v, ((), []));
    TokenThen("<", u);
    AndStep(Token("<"), HeadP(name), "<" + u, u, "<", v, (n, ((), [])));
  }

  /** A name free of `stops` and of `/`, ended by one of `stops`, is accepted as a tag name. */
  lemma NameBeforeOf(stops: seq<char>, n: string, c: char, v: string)
    requires c in stops && '/' !in n
    requires forall k :: 0 <= k < |n| ==> n[k] !in stops
    ensures NameBefore(stops)(n + [c] + v) == Some(([c] + v, n))
  {
    UntilAnyThen(stops, n, c, v);
  }

  /** A name that runs into a `/` before reaching one of `stops` is refused. */
  lemma NameBeforeRefuses(stops: seq<char>, n: string, c: char, v: string)
    requires c in stops && '/' in n
    requires forall k :: 0 <= k < |n| ==> n[k] !in stops
    ensures NameBefore(stops)(n + [c] + v).None?
  {
    UntilAnyThen(stops, n, c, v);
  }

  lemma ClosedNameOf(n: string, t: string)
    requires '/' !in n && ' ' !in n
    ensures ClosedIdentifierP()(n + ['/'] + (">" + t)) == Some((['/'] + (">" + t), n))
  {
    assert forall k :: 0 <= k < |n| ==> n[k] !in ['/', ' '];
    NameBeforeOf(['/', ' '], n, '/', ">" + t);
  }

  lemma ClosedShape(n: string, t: string)
    ensures "<" + n + "/>" + t == "<" + (n + ['/'] + (">" + t))
    ensures ['/'] + (">" + t) == "/>" + t
  {
  }

  /** `<n/>` is a self-closing tag with no attributes. */
  lemma TagClosedOf(n: string, t: string)
    requires '/' !in n && ' ' !in n
    ensures TagClosedP()("<" + n + "/>" + t) == Some((t, ColladaTagClosed(n, [])))
  {
    ClosedNameOf(n, t);
    ClosedShape(n, t);
    ClosedAfterName(n + ['/'] + (">" + t), n, t);
  }

  lemma ClosedAfterName(u: string, n: string, t: string)
    requires ClosedIdentifierP()(u) == Some(("/>" + t, n))
    ensures TagClosedP()("<" + u) == Some((t, ColladaTagClosed(n, [])))
  {
    var v := "/>" + t;
    BareOpen(ClosedIdentifierP(), u, n, v);
    TokenThen("/>", t);
    AndStep(OpenP(ClosedIdentifierP()), Token("/>"), "<" + u, v, ("<", (n, ((), []))), t, "/>");
    MapStep(And(OpenP(ClosedIdentifierP()), Token("/>")), ClosedNode, "<" + u, t, (("<", (n, ((), []))), "/>"));
  }

  /** A header that reads is the element: headers are tried first. */
  lemma ElementIsHeader(rec: Parser<Collada>, s: string, x: (string, Collada))
    requires Progress(rec) && HeaderP(rec)(s) == Some(x)
    ensures Element(rec)(s) == Some(x)
  {
    OrFirstSuccess(HeaderP(rec), TagP(rec), s);
    OrFirstSuccess(Or(HeaderP(rec), TagP(rec)), TagClosedP(), s);
  }

  /** With no header, an open tag that reads is the element. */
  lemma ElementIsTag(rec: Parser<Collada>, s: string, x: (string, Collada))
    requires Progress(rec) && HeaderP(rec)(s).None? && TagP(rec)(s) == Some(x)
    ensures Element(rec)(s) == Some(x)
  {
    OrFirstSuccess(HeaderP(rec), TagP(rec), s);
    OrFirstSuccess(Or(HeaderP(rec), TagP(rec)), TagClosedP(), s);
  }

  /** With neither a header nor an open tag, the element is whatever the self-closing form reads. */
  lemma ElementIsClosed(rec: Parser<Collada>, s: string)
    requires Progress(rec) && HeaderP(rec)(s).None? && TagP(rec)(s).None?
    ensures Element(rec)(s) == TagClosedP()(s)
  {
    OrFirstSuccess(HeaderP(rec), TagP(rec), s);
    OrFirstSuccess(Or(HeaderP(rec), TagP(rec)), TagClosedP(), s);
  }

  /** `<n/>` does not start with `<?` when `n` has no `?`. */
  lemma SelfClosingStart(n: string, t: string)
    requires '?' !in n
    ensures !("<?" <= "<" + n + "/>" + t)
  {
    var s := "<" + n + "/>" + t;
    assert s[1] == if |n| > 0 then n[0] else '/';
  }

  /** Without its opening `<` and name, there is no open tag. */
  lemma TagNeedsOpen(rec: Parser<Collada>, s: string)
    requires Progress(rec) && OpenP(IdentifierP())(s).None?
    ensures TagP(rec)(s).None?
  {
    AndFirstFails(OpenP(IdentifierP()), Token(">"), s);
    TagNeedsHead(rec, s);
  }

  /** Without `<?` there is no header. */
  lemma HeaderNeedsProlog(rec: Parser<Collada>, s: string)
    requires Progress(rec) && !("<?" <= s)
    ensures HeaderP(rec)(s).None?
  {
    TokenSpec("<?", s);
    AndFirstFails(Token("<?"), Until('?'), s);
    AndFirstFails(And(Token("<?"), Until('?')), Token("?>"), s);
    AndFirstFails(And(And(Token("<?"), Until('?')), Token("?>")), OptWs(), s);
    AndFirstFails(PrologP(), rec, s);
    MapFails(And(PrologP(), rec), HeaderNode, s);
  }

  /** The name of an open tag would run into the `/` of `/>`, so `<n/>` is no open tag. */
  lemma SlashEndsNoOpenTag(n: string, t: string)
    requires '/' !in n && ' ' !in n && '>' !in n
    ensures OpenP(IdentifierP())("<" + n + "/>" + t).None?
  {
    var u := n + "/" + ['>'] + t;
    assert forall k :: 0 <= k < |n + "/"| ==> (n + "/")[k] !in ['>', ' '];
    NameBeforeRefuses(['>', ' '], n + "/", '>', t);
    NoOpenAfter(u);
    SelfClosingText(n, t);
  }

  lemma NoOpenAfter(u: string)
    requires IdentifierP()(u).None?
    ensures OpenP(IdentifierP())("<" + u).None?
  {
    AndFirstFails(IdentifierP(), And(OptWs(), ParamsP()), u);
    TokenThen("<", u);
    AndSecondFails(Token("<"), HeadP(IdentifierP()), "<" + u, u, "<");
  }

  /**
   * `<n/>` is read only as a self-closing tag: not as a header, and not as an open tag,
   * whose name may not contain `/`.
   */
  lemma SelfClosing(rec: Parser<Collada>, n: string, t: string)
    requires Progress(rec)
    requires '/' !in n && ' ' !in n && '>' !in n && '?' !in n
    ensures Element(rec)("<" + n + "/>" + t) == Some((t, ColladaTagClosed(n, [])))
  {
    var s := "<" + n + "/>" + t;
    SelfClosingStart(n, t);
    HeaderNeedsProlog(rec, s);
    SlashEndsNoOpenTag(n, t);
    TagNeedsOpen(rec, s);
    ElementIsClosed(rec, s);
    TagClosedOf(n, t);
  }

  /** No run of numbers starts with `<`. */
  lemma NoFloatsAt(u: string)
    requires |u| > 0 && u[0] == '<'
    ensures FloatsP()(u).None?
  {
    ScientificNeedsDigit(u);
    ProgressNoGrowth(Ws());
    ManyDelimSpec(Scientific(), Ws(), u);
    AndFirstFails(FloatRunP(), Lookahead("<"), u);
    MapFails(And(FloatRunP(), Lookahead("<")), FloatsNode, u);
  }

  /** A closing tag `</b>` with a non-empty name is not an element. */
  lemma ClosingIsNoElement(rec: Parser<Collada>, b: string, t: string)
    requires Progress(rec) && |b| > 0 && '>' !in b
    ensures Element(rec)("</" + b + ">" + t).None?
  {
    var u := "/" + b + ">" + t;
    var s := "<" + u;
    ClosingText(b, t);
    HeaderNeedsProlog(rec, s);
    ClosingNoOpenName(u, b, t);
    NoOpenAfter(u);
    TagNeedsOpen(rec, s);
    ClosingNoClosedTag(u, b, t);
    ElementIsClosed(rec, s);
  }

  lemma ClosingNoOpenName(u: string, b: string, t: string)
    requires u == "/" + b + ">" + t
    ensures IdentifierP()(u).None?
  {
    assert u[|b| + 1] == '>';
    UntilAnySpec(['>', ' '], u);
    var r := UntilAny(['>', ' '])(u).value.1;
    assert |r| > 0 && r[0] == '/';
  }

  lemma ClosingNoClosedTag(u: string, b: string, t: string)
    requires u == "/" + b + ">" + t && |b| > 0 && '>' !in b
    ensures TagClosedP()("<" + u).None?
  {
    UntilAnyThen(['/', ' '], "", '/', b + ">" + t);
    ClosingText(b, t);
    BareOpen(ClosedIdentifierP(), u, "", u);
    assert u[1] == b[0];
    TokenSpec("/>", u);
    AndSecondFails(OpenP(ClosedIdentifierP()), Token("/>"), "<" + u, u, ("<", ("", ((), []))));
    MapFails(And(OpenP(ClosedIdentifierP()), Token("/>")), ClosedNode, "<" + u);
  }

  /** Directly in front of `<` there is no text: the text node is the empty node. */
  lemma NoTextAt(x: string)
    requires |x| > 0 && x[0] == '<'
    ensures StringP()(x) == Some((x, ColladaNone))
  {
    UntilThen('<', "", x[1..]);
    assert [] + ['<'] + x[1..] == x;
    MapStep(Until('<'), TextNode, x, x, "");
  }

  /** In front of something that is no element and starts with `<`, the children are one empty node. */
  lemma EmptyChildren(rec: Parser<Collada>, x: string)
    requires Progress(rec) && |x| > 0 && x[0] == '<' && rec(x).None?
    ensures ChildrenP(rec)(x) == Some((x, [ColladaNone]))
  {
    ProgressNoGrowth(Ws());
    ManyDelimSpec(rec, OptWs(), x);
    NoFloatsAt(x);
    MapFails(FloatsP(), Single, x);
    NoTextAt(x);
    MapStep(StringP(), Single, x, x, ColladaNone);
    OrFirstSuccess(Map(FloatsP(), Single), Map(StringP(), Single), x);
    OrFirstSuccess(ManyDelim(rec, OptWs()), Or(Map(FloatsP(), Single), Map(StringP(), Single)), x);
  }

  /** In front of something that is no element and starts with `<`, the content is one empty node. */
  lemma EmptyBody(rec: Parser<Collada>, x: string)
    requires Progress(rec) && |x| > 0 && x[0] == '<' && rec(x).None?
    ensures BodyP(rec)(x) == Some((x, (((), [ColladaNone]), ())))
  {
    NoWs(x);
    EmptyChildren(rec, x);
    AndStep(OptWs(), ChildrenP(rec), x, x, (), x, [ColladaNone]);
    AndStep(And(OptWs(), ChildrenP(rec)), OptWs(), x, x, ((), [ColladaNone]), x, ());
  }

  /**
   * How an open tag reads: its head and `>`, its body, `</`, any name at all and `>`.
   * The closing name `b` does not appear in the result: it is never compared with `a`.
   */
  lemma TagReads(rec: Parser<Collada>, s: string, x: string, a: string, ps: seq<TagParameter>,
                 y: string, cs: seq<Collada>, z: string, b: string, w: string, t: string)
    requires Progress(rec)
    requires And(OpenP(IdentifierP()), Token(">"))(s) == Some((x, (("<", (a, ((), ps))), ">")))
    requires BodyP(rec)(x) == Some((y, (((), cs), ())))
    requires Token("</")(y) == Some((z, "</")) && Until('>')(z) == Some((w, b)) && Token(">")(w) == Some((t, ">"))
    ensures TagP(rec)(s) == Some((t, ColladaTag(a, ps, cs)))
  {
    var open := And(OpenP(IdentifierP()), Token(">"));
    var v0 := (("<", (a, ((), ps))), ">");
    var v1 := (v0, (((), cs), ()));
    AndStep(open, BodyP(rec), s, x, v0, y, (((), cs), ()));
    AndStep(And(open, BodyP(rec)), Token("</"), s, y, v1, z, "</");
    AndStep(And(And(open, BodyP(rec)), Token("</")), Until('>'), s, z, (v1, "</"), w, b);
    AndStep(TagPartsP(rec), Token(">"), s, w, ((v1, "</"), b), t, ">");
    MapStep(And(TagPartsP(rec), Token(">")), TagNode, s, t, (((v1, "</"), b), ">"));
  }

  /** `<a>` with a plain name opens a tag with no attributes. */
  lemma OpenTagOf(a: string, x: string)
    requires '/' !in a && '>' !in a && ' ' !in a
    ensures And(OpenP(IdentifierP()), Token(">"))("<" + (a + ['>'] + x)) == Some((x, (("<", (a, ((), []))), ">")))
  {
    var u := a + ['>'] + x;
    assert forall k :: 0 <= k < |a| ==> a[k] !in ['>', ' '];
    NameBeforeOf(['>', ' '], a, '>', x);
    BareOpen(IdentifierP(), u, a, ['>'] + x);
    TokenThen(">", x);
    AndStep(OpenP(IdentifierP()), Token(">"), "<" + u, ['>'] + x, ("<", (a, ((), []))), x, ">");
  }

  /** The closing part `</b>` with any name `b` free of `>`. */
  lemma CloseOf(b: string, t: string)
    ensures Token("</")("</" + b + ">" + t) == Some((b + ['>'] + t, "</"))
    ensures '>' !in b ==> Until('>')(b + ['>'] + t) == Some((">" + t, b))
    ensures Token(">")(">" + t) == Some((t, ">"))
  {
    ClosingText(b, t);
    TokenThen("</", b + ['>'] + t);
    if '>' !in b {
      UntilThen('>', b, t);
    }
    TokenThen(">", t);
  }

  /**
   * `<a></b>` is an open tag named `a` holding one empty node, whatever the closing
   * name `b` is, provided nothing after `<a>` reads as an element.
   */
  lemma EmptyTag(rec: Parser<Collada>, a: string, b: string, t: string)
    requires Progress(rec)
    requires '/' !in a && '>' !in a && ' ' !in a && '?' !in a && '>' !in b
    requires rec("</" + b + ">" + t).None?
    ensures Element(rec)("<" + a + "></" + b + ">" + t) == Some((t, ColladaTag(a, [], [ColladaNone])))
  {
    var x := "</" + b + ">" + t;
    var s := "<" + (a + ['>'] + x);
    EmptyTagText(a, b, t);
    HeaderNeedsProlog(rec, s);
    OpenTagOf(a, x);
    EmptyBody(rec, x);
    CloseOf(b, t);
    TagReads(rec, s, x, a, [], x, [ColladaNone], b + ['>'] + t, b, ">" + t, t);
    ElementIsTag(rec, s, (t, ColladaTag(a, [], [ColladaNone])));
  }

  /** The document parser reads `<a></b>` as a tag named `a`: closing names are not checked. */
  lemma UncheckedClosingName(a: string, b: string, t: string)
    requires '/' !in a && '>' !in a && ' ' !in a && '?' !in a && |b| > 0 && '>' !in b
    ensures ColladaP("<" + a + "></" + b + ">" + t) == Some((t, ColladaTag(a, [], [ColladaNone])))
  {
    var x := "</" + b + ">" + t;
    var s := "<" + a + "></" + b + ">" + t;
    assert |x| < |s|;
    ClosingIsNoElement(Below(|x|), b, t);
    assert Below(|s|)(x) == ColladaP(x);
    EmptyTag(Below(|s|), a, b, t);
  }

  /** The document parser reads `<n/>` as a self-closing tag. */
  lemma SelfClosingDocument(n: string, t: string)
    requires '/' !in n && ' ' !in n && '>' !in n && '?' !in n
    ensures ColladaP("<" + n + "/>" + t) == Some((t, ColladaTagClosed(n, [])))
  {
    SelfClosing(Below(|"<" + n + "/>" + t|), n, t);
  }

  /** A tag name accepted by `NameBefore` never contains `/`. */
  lemma NameHasNoSlash(stops: seq<char>, u: string)
    requires NameBefore(stops)(u).Some?
    ensures '/' !in NameBefore(stops)(u).value.1
  {
  }

  /** The name of an open tag read by `OpenP` is the one its name parser produced. */
  lemma OpenName(name: Parser<string>, s: string)
    requires NoGrowth(name) && OpenP(name)(s).Some?
    ensures Token("<")(s).Some? && name(Token("<")(s).value.0).Some?
    ensures OpenP(name)(s).value.1.1.0 == name(Token("<")(s).value.0).value.1
  {
    AndParts(Token("<"), HeadP(name), s);
    AndParts(name, And(OptWs(), ParamsP()), Token("<")(s).value.0);
  }

  /** The parts of an open tag start with what its head and `>` read. */
  lemma TagPartsOpen(rec: Parser<Collada>, s: string)
    requires Progress(rec) && TagPartsP(rec)(s).Some?
    ensures And(OpenP(IdentifierP()), Token(">"))(s).Some?
    ensures TagPartsP(rec)(s).value.1.0.0.0 == And(OpenP(IdentifierP()), Token(">"))(s).value.1
  {
    var open := And(OpenP(IdentifierP()), Token(">"));
    AndParts(And(And(open, BodyP(rec)), Token("</")), Until('>'), s);
    AndParts(And(open, BodyP(rec)), Token("</"), s);
    AndParts(open, BodyP(rec), s);
  }

  /** An open tag is named by the head its parts start with. */
  lemma TagNameIs(rec: Parser<Collada>, s: string)
    requires Progress(rec) && TagP(rec)(s).Some?
    ensures TagPartsP(rec)(s).Some? && TagP(rec)(s).value.1.ColladaTag?
    ensures TagP(rec)(s).value.1.tag == TagPartsP(rec)(s).value.1.0.0.0.0.1.0
  {
    MapParts(And(TagPartsP(rec), Token(">")), TagNode, s);
    AndParts(TagPartsP(rec), Token(">"), s);
  }

  /** The name of a parsed open tag never contains `/`. */
  lemma OpenTagNameHasNoSlash(rec: Parser<Collada>, s: string)
    requires Progress(rec) && TagP(rec)(s).Some?
    ensures TagP(rec)(s).value.1.ColladaTag?
    ensures '/' !in TagP(rec)(s).value.1.tag
  {
    TagNameIs(rec, s);
    TagPartsOpen(rec, s);
    AndParts(OpenP(IdentifierP()), Token(">"), s);
    OpenName(IdentifierP(), s);
    var u := Token("<")(s).value.0;
    NameHasNoSlash(['>', ' '], u);
    assert '/' !in IdentifierP()(u).value.1;
  }

  /** `<?h?>` with no `?` inside, and no whitespace after it. */
  lemma PrologOf(h: string, u: string)
    requires '?' !in h && |u| > 0 && !IsWhitespace(u[0])
    ensures PrologP()("<?" + h + "?>" + u) == Some((u, ((("<?", h), "?>"), ())))
  {
    var s := "<?" + (h + ['?'] + (">" + u));
    PrologText(h, u);
    TokenThen("<?", h + ['?'] + (">" + u));
    UntilThen('?', h, ">" + u);
    TokenThen("?>", u);
    NoWs(u);
    AndStep(Token("<?"), Until('?'), s, h + ['?'] + (">" + u), "<?", "?>" + u, h);
    AndStep(And(Token("<?"), Until('?')), Token("?>"), s, "?>" + u, ("<?", h), u, "?>");
    AndStep(And(And(Token("<?"), Until('?')), Token("?>")), OptWs(), s, u, (("<?", h), "?>"), u, ());
  }

  /** After a prolog, the header holds the element that follows; headers are tried first. */
  lemma HeaderReads(rec: Parser<Collada>, s: string, u: string, pr: Prolog, t: string, c: Collada)
    requires Progress(rec) && PrologP()(s) == Some((u, pr)) && rec(u) == Some((t, c))
    ensures Element(rec)(s) == Some((t, ColladaHeader(c)))
  {
    AndStep(PrologP(), rec, s, u, pr, t, c);
    MapStep(And(PrologP(), rec), HeaderNode, s, t, (pr, c));
    ElementIsHeader(rec, s, (t, ColladaHeader(c)));
  }

  /** A document `<?h?><n/>` is a header holding a self-closing tag. */
  lemma HeaderDocument(h: string, n: string, t: string)
    requires '?' !in h && '/' !in n && ' ' !in n && '>' !in n && '?' !in n
    ensures ColladaP("<?" + h + "?>" + ("<" + n + "/>" + t)) == Some((t, ColladaHeader(ColladaTagClosed(n, []))))
  {
    var u := "<" + n + "/>" + t;
    var s := "<?" + h + "?>" + u;
    PrologOf(h, u);
    assert |u| < |s|;
    SelfClosingDocument(n, t);
    assert Below(|s|)(u) == ColladaP(u);
    HeaderReads(Below(|s|), s, u, ((("<?", h), "?>"), ()), t, ColladaTagClosed(n, []));
  }

  /**
   * A run of numbers is read only when `<` follows it, and that `<` is left in place; the
   * numbers are those the whitespace-separated scan of numbers takes.
   */
  lemma FloatsBeforeTag(s: string)
    requires FloatsP()(s).Some?
    ensures "<" <= FloatsP()(s).value.0
    ensures FloatsP()(s).value.1.ColladaFloats? && |FloatsP()(s).value.1.values| >= 1
    ensures FloatRunP()(s).Some? && FloatsP()(s) == Some((FloatRunP()(s).value.0, ColladaFloats(FloatRunP()(s).value.1)))
  {
    MapParts(And(FloatRunP(), Lookahead("<")), FloatsNode, s);
    AndParts(FloatRunP(), Lookahead("<"), s);
    LookaheadSpec("<", FloatRunP()(s).value.0);
    ProgressNoGrowth(Ws());
    ManyDelimSpec(Scientific(), Ws(), s);
  }

  /**
   * Text never fails. It is everything up to the next `<`, which is left in place; no text
   * at all gives the empty node. Without any `<` nothing is consumed and the node is empty.
   */
  lemma TextSpec(s: string)
    ensures StringP()(s).Some?
    ensures '<' in s ==> |StringP()(s).value.0| > 0 && StringP()(s).value.0[0] == '<'
    ensures '<' !in s ==> StringP()(s).value == (s, ColladaNone)
    ensures StringP()(s).value.1 == ColladaNone <==> StringP()(s).value.0 == s
    ensures StringP()(s).value.1.ColladaString? ==>
      '<' !in StringP()(s).value.1.text && StringP()(s).value.1.text + StringP()(s).value.0 == s
  {
    UntilSpec('<', s);
  }

  // Runs of numbers, as they are written inside a tag.

  /** Numerals separated by single spaces. */
  function RunText(ns: seq<Numeral>): string {
    if |ns| == 0 then "" else NumeralText(ns[0]) + RunTail(ns[1..])
  }

  /** Numerals, each preceded by one space. */
  function RunTail(ms: seq<Numeral>): string {
    if |ms| == 0 then "" else " " + NumeralText(ms[0]) + RunTail(ms[1..])
  }

  /** The numbers the numerals denote, in order. */
  function RunValues(ns: seq<Numeral>): (r: seq<Decimal>)
    ensures |r| == |ns|
  {
    if |ns| == 0 then [] else [NumeralValue(ns[0])] + RunValues(ns[1..])
  }

  /** A numeral starts with a minus sign or a digit, never with whitespace or `<`. */
  lemma NumeralStart(n: Numeral, r: string)
    requires WellFormedNumeral(n)
    ensures |NumeralText(n) + r| > 0 && !IsWhitespace((NumeralText(n) + r)[0]) && (NumeralText(n) + r)[0] != '<'
  {
    assert (NumeralText(n) + r)[0] == if n.negative then '-' else n.whole[0];
  }

  /** One space in front of something that does not start with whitespace is all `Ws` takes. */
  lemma SpaceThen(x: string)
    requires |x| > 0 && !IsWhitespace(x[0])
    ensures Ws()(" " + x) == Some((x, ()))
  {
    assert (" " + x)[1..] == x;
  }

  /** A non-empty tail is a space, its first numeral and the rest of the tail. */
  lemma RunTailSplit(ms: seq<Numeral>, t: string)
    requires |ms| > 0
    ensures RunTail(ms) + t == " " + (NumeralText(ms[0]) + (RunTail(ms[1..]) + t))
  {
  }

  /** One numeral followed by `<` is a run of one number. */
  lemma FloatRunOne(n: Numeral, t: string)
    requires WellFormedNumeral(n) && |t| > 0 && t[0] == '<'
    ensures FloatRunP()(NumeralText(n) + t) == Some((t, [NumeralValue(n)]))
  {
    ProgressNoGrowth(Ws());
    NumeralReads(n, t);
    WsSpec(t);
    ManyDelimLast(Scientific(), Ws(), NumeralText(n) + t, t, NumeralValue(n));
  }

  /** A numeral and a space in front of a run put its value in front of the run's. */
  lemma FloatRunCons(n: Numeral, x: string, t: string, vs: seq<Decimal>)
    requires WellFormedNumeral(n) && |x| > 0 && !IsWhitespace(x[0])
    requires FloatRunP()(x) == Some((t, vs))
    ensures FloatRunP()(NumeralText(n) + (" " + x)) == Some((t, [NumeralValue(n)] + vs))
  {
    ProgressNoGrowth(Ws());
    NumeralReads(n, " " + x);
    SpaceThen(x);
    ManyDelimStep(Scientific(), Ws(), NumeralText(n) + (" " + x), " " + x, NumeralValue(n), x);
  }

  /** A numeral followed by a tail of numerals and then `<` reads as their values in order. */
  lemma {:induction false} FloatRunFrom(n: Numeral, ms: seq<Numeral>, t: string)
    requires WellFormedNumeral(n) && forall i :: 0 <= i < |ms| ==> WellFormedNumeral(ms[i])
    requires |t| > 0 && t[0] == '<'
    ensures FloatRunP()(NumeralText(n) + (RunTail(ms) + t)) == Some((t, [NumeralValue(n)] + RunValues(ms)))
    decreases |ms|
  {
    if |ms| == 0 {
      assert RunTail(ms) + t == t;
      assert [NumeralValue(n)] + RunValues(ms) == [NumeralValue(n)];
      FloatRunOne(n, t);
    } else {
      var x := NumeralText(ms[0]) + (RunTail(ms[1..]) + t);
      RunTailSplit(ms, t);
      NumeralStart(ms[0], RunTail(ms[1..]) + t);
      FloatRunFrom(ms[0], ms[1..], t);
      FloatRunCons(n, x, t, [NumeralValue(ms[0])] + RunValues(ms[1..]));
      assert RunValues(ms) == [NumeralValue(ms[0])] + RunValues(ms[1..]);
    }
  }

  /** Numerals separated by single spaces, followed by `<`, read as their values in order. */
  lemma FloatRunOf(ns: seq<Numeral>, t: string)
    requires |ns| > 0 && forall i :: 0 <= i < |ns| ==> WellFormedNumeral(ns[i])
    requires |t| > 0 && t[0] == '<'
    ensures FloatRunP()(RunText(ns) + t) == Some((t, RunValues(ns)))
  {
    assert RunText(ns) + t == NumeralText(ns[0]) + (RunTail(ns[1..]) + t);
    FloatRunFrom(ns[0], ns[1..], t);
  }

  /** Numerals separated by single spaces and followed by `<` are a run of those numbers. */
  lemma FloatsOf(ns: seq<Numeral>, t: string)
    requires |ns| > 0 && forall i :: 0 <= i < |ns| ==> WellFormedNumeral(ns[i])
    requires |t| > 0 && t[0] == '<'
    ensures FloatsP()(RunText(ns) + t) == Some((t, ColladaFloats(RunValues(ns))))
  {
    var s := RunText(ns) + t;
    FloatRunOf(ns, t);
    LookaheadSpec("<", t);
    AndStep(FloatRunP(), Lookahead("<"), s, t, RunValues(ns), t, ());
    MapStep(And(FloatRunP(), Lookahead("<")), FloatsNode, s, t, (RunValues(ns), ()));
  }

  /** `1.2 2 3.4<` is the run 1.2, 2, 3.4, with the `<` left in place. */
  lemma FloatsExample()
    ensures FloatsP()("1.2 2 3.4<") == Some(("<", ColladaFloats([Decimal(12, -1), Decimal(2, 0), Decimal(34, -1)])))
  {
    ExampleRunText();
    ExampleRunValues();
    FloatsOf(ExampleRun(), "<");
  }

  /** `-1 -1 1 -1 1<` is the run of the five signed ones, stopping before the `<`. */
  lemma SignedFloatsExample()
    ensures FloatsP()("-1 -1 1 -1 1<") ==
      Some(("<", ColladaFloats([Decimal(-1, 0), Decimal(-1, 0), Decimal(1, 0), Decimal(-1, 0), Decimal(1, 0)])))
  {
    SignedRunText();
    SignedRunValues();
    FloatsOf(SignedRun(), "<");
  }

  /** The numerals of `-1 -1 1 -1 1`. */
  function SignedRun(): seq<Numeral> {
    var m, p := Numeral(true, "1", ""), Numeral(false, "1", "");
    [m, m, p, m, p]
  }

  lemma SignedRunText()
    ensures RunText(SignedRun()) + "<" == "-1 -1 1 -1 1<"
    ensures |SignedRun()| > 0 && forall i :: 0 <= i < |SignedRun()| ==> WellFormedNumeral(SignedRun()[i])
  {
  }

  lemma SignedRunValues()
    ensures RunValues(SignedRun()) == [Decimal(-1, 0), Decimal(-1, 0), Decimal(1, 0), Decimal(-1, 0), Decimal(1, 0)]
  {
  }

  /** The numerals of `1.2 2 3.4`. */
  function ExampleRun(): seq<Numeral> {
    [Numeral(false, "1", "2"), Numeral(false, "2", ""), Numeral(false, "3", "4")]
  }

  lemma ExampleRunText()
    ensures RunText(ExampleRun()) + "<" == "1.2 2 3.4<"
    ensures |ExampleRun()| > 0 && forall i :: 0 <= i < |ExampleRun()| ==> WellFormedNumeral(ExampleRun()[i])
  {
  }

  lemma ExampleRunValues()
    ensures RunValues(ExampleRun()) == [Decimal(12, -1), Decimal(2, 0), Decimal(34, -1)]
  {
  }

  // Attribute lists, as they are written after a tag name.

  /** An attribute as it is written: `name="value"`. */
  datatype Attribute = Attribute(name: string, value: string)

  /** A name that starts with no whitespace and holds no `=` and no refused character; a value free of `"`. */
  predicate WellFormedAttribute(a: Attribute) {
    |a.name| > 0 && !IsWhitespace(a.name[0]) && '=' !in a.name && !BadName(a.name) && '"' !in a.value
  }

  function AttributeString(a: Attribute): string {
    a.name + "=\"" + a.value + "\""
  }

  /** What an attribute reads as: an integer when its value is an integer literal, text otherwise. */
  function ParameterOf(a: Attribute): TagParameter {
    if IsIntegerText(a.value) then ParameterInt(a.name, IntegerTextValue(a.value)) else ParameterString(a.name, a.value)
  }

  /** Attributes, each preceded by one space. */
  function SpacedAttributes(attrs: seq<Attribute>): string {
    if |attrs| == 0 then "" else " " + AttributeString(attrs[0]) + SpacedAttributes(attrs[1..])
  }

  /** What the attributes read as, in order. */
  function Parameters(attrs: seq<Attribute>): (r: seq<TagParameter>)
    ensures |r| == |attrs|
  {
    if |attrs| == 0 then [] else [ParameterOf(attrs[0])] + Parameters(attrs[1..])
  }

  /** Every attribute, whatever its value, reads as `ParameterOf` says, and reading stops right after it. */
  lemma AttributeReads(a: Attribute, t: string)
    requires '=' !in a.name && !BadName(a.name) && '"' !in a.value
    ensures ParamP()(AttributeString(a) + t) == Some((t, ParameterOf(a)))
  {
    var n, v := a.name, a.value;
    if Digits(v) {
      IntAttribute(n, v, t);
    } else if IsIntegerText(v) {
      assert v == "-" + v[1..];
      NegativeIntAttribute(n, v[1..], t);
    } else {
      TextAttribute(n, v, t);
    }
  }

  /** An attribute starts with the first character of its name. */
  lemma AttributeFirst(a: Attribute, r: string)
    requires WellFormedAttribute(a)
    ensures |AttributeString(a) + r| > 0 && !IsWhitespace((AttributeString(a) + r)[0])
  {
    assert (AttributeString(a) + r)[0] == a.name[0];
  }

  /** A non-empty attribute list is a space, its first attribute and the rest of the list. */
  lemma SpacedSplit(attrs: seq<Attribute>, v: string)
    requires |attrs| > 0
    ensures SpacedAttributes(attrs) + v == " " + (AttributeString(attrs[0]) + (SpacedAttributes(attrs[1..]) + v))
  {
  }

  /** One attribute before `/` or `>` is a list of one. */
  lemma ParamListOne(a: Attribute, v: string)
    requires WellFormedAttribute(a) && |v| > 0 && (v[0] == '/' || v[0] == '>')
    ensures ManyDelim(ParamP(), Ws())(AttributeString(a) + v) == Some((v, [ParameterOf(a)]))
  {
    ProgressNoGrowth(Ws());
    AttributeReads(a, v);
    WsSpec(v);
    ManyDelimLast(ParamP(), Ws(), AttributeString(a) + v, v, ParameterOf(a));
  }

  /** An attribute and a space in front of a list put its reading in front of the list's. */
  lemma ParamListCons(a: Attribute, x: string, v: string, ps: seq<TagParameter>)
    requires WellFormedAttribute(a) && |x| > 0 && !IsWhitespace(x[0])
    requires ManyDelim(ParamP(), Ws())(x) == Some((v, ps))
    ensures ManyDelim(ParamP(), Ws())(AttributeString(a) + (" " + x)) == Some((v, [ParameterOf(a)] + ps))
  {
    ProgressNoGrowth(Ws());
    AttributeReads(a, " " + x);
    SpaceThen(x);
    ManyDelimStep(ParamP(), Ws(), AttributeString(a) + (" " + x), " " + x, ParameterOf(a), x);
  }

  /** An attribute followed by spaced attributes and then `/` or `>` reads as all of them, in order. */
  lemma {:induction false} ParamListFrom(a: Attribute, attrs: seq<Attribute>, v: string)
    requires WellFormedAttribute(a) && forall i :: 0 <= i < |attrs| ==> WellFormedAttribute(attrs[i])
    requires |v| > 0 && (v[0] == '/' || v[0] == '>')
    ensures ManyDelim(ParamP(), Ws())(AttributeString(a) + (SpacedAttributes(attrs) + v)) ==
      Some((v, [ParameterOf(a)] + Parameters(attrs)))
    decreases |attrs|
  {
    if |attrs| == 0 {
      assert SpacedAttributes(attrs) + v == v;
      assert [ParameterOf(a)] + Parameters(attrs) == [ParameterOf(a)];
      ParamListOne(a, v);
    } else {
      var x := AttributeString(attrs[0]) + (SpacedAttributes(attrs[1..]) + v);
      SpacedSplit(attrs, v);
      AttributeFirst(attrs[0], SpacedAttributes(attrs[1..]) + v);
      ParamListFrom(attrs[0], attrs[1..], v);
      ParamListCons(a, x, v, [ParameterOf(attrs[0])] + Parameters(attrs[1..]));
      assert Parameters(attrs) == [ParameterOf(attrs[0])] + Parameters(attrs[1..]);
    }
  }

  /** Spaced attributes in front of `/` or `>`: the optional whitespace and the attribute list read them all. */
  lemma AttributesAfterName(attrs: seq<Attribute>, v: string)
    requires forall i :: 0 <= i < |attrs| ==> WellFormedAttribute(attrs[i])
    requires |v| > 0 && (v[0] == '/' || v[0] == '>')
    ensures And(OptWs(), ParamsP())(SpacedAttributes(attrs) + v) == Some((v, ((), Parameters(attrs))))
  {
    if |attrs| == 0 {
      assert SpacedAttributes(attrs) + v == v;
      NoWs(v);
      NoParams(v);
      AndStep(OptWs(), ParamsP(), v, v, (), v, []);
    } else {
      var y := AttributeString(attrs[0]) + (SpacedAttributes(attrs[1..]) + v);
      SpacedSplit(attrs, v);
      AttributeFirst(attrs[0], SpacedAttributes(attrs[1..]) + v);
      SpaceThen(y);
      MaybeTotal(Ws(), (), " " + y);
      ParamListFrom(attrs[0], attrs[1..], v);
      assert Parameters(attrs) == [ParameterOf(attrs[0])] + Parameters(attrs[1..]);
      MaybeTotal(ManyDelim(ParamP(), Ws()), [], y);
      AndStep(OptWs(), ParamsP(), " " + y, y, (), v, Parameters(attrs));
    }
  }

  /** A name free of `/` and of `stops`, followed by one of `stops`, is accepted as a tag name. */
  lemma NameFollowedBy(stops: seq<char>, n: string, r: string)
    requires '/' !in n && |r| > 0 && r[0] in stops
    requires forall k :: 0 <= k < |n| ==> n[k] !in stops
    ensures NameBefore(stops)(n + r) == Some((r, n))
  {
    assert n + r == n + [r[0]] + r[1..];
    NameBeforeOf(stops, n, r[0], r[1..]);
    assert [r[0]] + r[1..] == r;
  }

  /** A tag head regrouped around its name; what follows the name starts with a space or with `c`. */
  lemma HeadText(n: string, attrs: seq<Attribute>, c: string, t: string)
    requires |c| > 0
    ensures "<" + n + SpacedAttributes(attrs) + c + t == "<" + (n + (SpacedAttributes(attrs) + (c + t)))
    ensures |SpacedAttributes(attrs) + (c + t)| > 0
    ensures (SpacedAttributes(attrs) + (c + t))[0] == if |attrs| > 0 then ' ' else c[0]
  {
  }

  /** Whatever follows `<` and does not start with `?` is no prolog. */
  lemma NoPrologAfter(u: string)
    requires |u| > 0 && u[0] != '?'
    ensures !("<?" <= "<" + u)
  {
    assert ("<" + u)[1] == u[0];
  }

  /** A tag name followed by spaced attributes and then `/` or `>`: the head reads the name and every attribute. */
  lemma OpenWithAttributes(name: Parser<string>, u: string, n: string, attrs: seq<Attribute>, v: string)
    requires NoGrowth(name) && name(u) == Some((SpacedAttributes(attrs) + v, n))
    requires forall i :: 0 <= i < |attrs| ==> WellFormedAttribute(attrs[i])
    requires |v| > 0 && (v[0] == '/' || v[0] == '>')
    ensures OpenP(name)("<" + u) == Some((v, ("<", (n, ((), Parameters(attrs))))))
  {
    AttributesAfterName(attrs, v);
    AndStep(name, And(OptWs(), ParamsP()), u, SpacedAttributes(attrs) + v, n, v, ((), Parameters(attrs)));
    TokenThen("<", u);
    AndStep(Token("<"), HeadP(name), "<" + u, u, "<", v, (n, ((), Parameters(attrs))));
  }

  /** `<n a1="v1" ... ak="vk"/>` is a self-closing tag carrying what the attributes read as, in order. */
  lemma ClosedWithAttributes(n: string, attrs: seq<Attribute>, t: string)
    requires '/' !in n && ' ' !in n
    requires forall i :: 0 <= i < |attrs| ==> WellFormedAttribute(attrs[i])
    ensures TagClosedP()("<" + n + SpacedAttributes(attrs) + "/>" + t) ==
      Some((t, ColladaTagClosed(n, Parameters(attrs))))
  {
    var v := "/>" + t;
    var u := n + (SpacedAttributes(attrs) + v);
    var ps := Parameters(attrs);
    HeadText(n, attrs, "/>", t);
    assert forall k :: 0 <= k < |n| ==> n[k] !in ['/', ' '];
    NameFollowedBy(['/', ' '], n, SpacedAttributes(attrs) + v);
    OpenWithAttributes(ClosedIdentifierP(), u, n, attrs, v);
    TokenThen("/>", t);
    AndStep(OpenP(ClosedIdentifierP()), Token("/>"), "<" + u, v, ("<", (n, ((), ps))), t, "/>");
    MapStep(And(OpenP(ClosedIdentifierP()), Token("/>")), ClosedNode, "<" + u, t, (("<", (n, ((), ps))), "/>"));
  }

  /** Without an open head followed by `>`, there is no open tag. */
  lemma TagNeedsHead(rec: Parser<Collada>, s: string)
    requires Progress(rec) && And(OpenP(IdentifierP()), Token(">"))(s).None?
    ensures TagP(rec)(s).None?
  {
    var open := And(OpenP(IdentifierP()), Token(">"));
    AndFirstFails(open, BodyP(rec), s);
    AndFirstFails(And(open, BodyP(rec)), Token("</"), s);
    AndFirstFails(And(And(open, BodyP(rec)), Token("</")), Until('>'), s);
    AndFirstFails(TagPartsP(rec), Token(">"), s);
    MapFails(And(TagPartsP(rec), Token(">")), TagNode, s);
  }

  /** With attributes, the name of `<n a="v"/>` ends at the space, and the open form then fails at `/>`. */
  lemma AttributedIsNoOpenTag(n: string, attrs: seq<Attribute>, t: string)
    requires '/' !in n && ' ' !in n && '>' !in n && |attrs| > 0
    requires forall i :: 0 <= i < |attrs| ==> WellFormedAttribute(attrs[i])
    ensures And(OpenP(IdentifierP()), Token(">"))("<" + n + SpacedAttributes(attrs) + "/>" + t).None?
  {
    var v := "/>" + t;
    var u := n + (SpacedAttributes(attrs) + v);
    HeadText(n, attrs, "/>", t);
    assert forall k :: 0 <= k < |n| ==> n[k] !in ['>', ' '];
    NameFollowedBy(['>', ' '], n, SpacedAttributes(attrs) + v);
    OpenWithAttributes(IdentifierP(), u, n, attrs, v);
    TokenSpec(">", v);
    AndSecondFails(OpenP(IdentifierP()), Token(">"), "<" + u, v, ("<", (n, ((), Parameters(attrs)))));
  }

  /** `<n a1="v1" ... ak="vk"/>` is read only as a self-closing tag, with or without attributes. */
  lemma SelfClosingWithAttributes(rec: Parser<Collada>, n: string, attrs: seq<Attribute>, t: string)
    requires Progress(rec)
    requires '/' !in n && ' ' !in n && '>' !in n && '?' !in n
    requires forall i :: 0 <= i < |attrs| ==> WellFormedAttribute(attrs[i])
    ensures Element(rec)("<" + n + SpacedAttributes(attrs) + "/>" + t) ==
      Some((t, ColladaTagClosed(n, Parameters(attrs))))
  {
    if |attrs| == 0 {
      NoAttributesText(n, attrs, t);
      SelfClosing(rec, n, t);
    } else {
      AttributedSelfClosing(rec, n, attrs, t);
    }
  }

  lemma NoAttributesText(n: string, attrs: seq<Attribute>, t: string)
    requires |attrs| == 0
    ensures "<" + n + SpacedAttributes(attrs) + "/>" + t == "<" + n + "/>" + t && Parameters(attrs) == []
  {
  }

  lemma AttributedSelfClosing(rec: Parser<Collada>, n: string, attrs: seq<Attribute>, t: string)
    requires Progress(rec)
    requires '/' !in n && ' ' !in n && '>' !in n && '?' !in n && |attrs| > 0
    requires forall i :: 0 <= i < |attrs| ==> WellFormedAttribute(attrs[i])
    ensures Element(rec)("<" + n + SpacedAttributes(attrs) + "/>" + t) ==
      Some((t, ColladaTagClosed(n, Parameters(attrs))))
  {
    var s := "<" + n + SpacedAttributes(attrs) + "/>" + t;
    AttributedStart(n, attrs, t);
    HeaderNeedsProlog(rec, s);
    AttributedIsNoOpenTag(n, attrs, t);
    TagNeedsHead(rec, s);
    ElementIsClosed(rec, s);
    ClosedWithAttributes(n, attrs, t);
  }

  /** A tag with attributes does not start with `<?` when its name has no `?`. */
  lemma AttributedStart(n: string, attrs: seq<Attribute>, t: string)
    requires '?' !in n && |attrs| > 0
    ensures !("<?" <= "<" + n + SpacedAttributes(attrs) + "/>" + t)
  {
    HeadText(n, attrs, "/>", t);
    assert (n + (SpacedAttributes(attrs) + ("/>" + t)))[0] == if |n| > 0 then n[0] else ' ';
    NoPrologAfter(n + (SpacedAttributes(attrs) + ("/>" + t)));
  }

  /** `<a a1="v1" ... ak="vk">` opens a tag carrying what the attributes read as, in order. */
  lemma OpenHeadWith(a: string, attrs: seq<Attribute>, x: string)
    requires '/' !in a && ' ' !in a && '>' !in a
    requires forall i :: 0 <= i < |attrs| ==> WellFormedAttribute(attrs[i])
    ensures And(OpenP(IdentifierP()), Token(">"))("<" + a + SpacedAttributes(attrs) + ">" + x) ==
      Some((x, (("<", (a, ((), Parameters(attrs)))), ">")))
  {
    var v := ">" + x;
    var u := a + (SpacedAttributes(attrs) + v);
    HeadText(a, attrs, ">", x);
    assert forall k :: 0 <= k < |a| ==> a[k] !in ['>', ' '];
    NameFollowedBy(['>', ' '], a, SpacedAttributes(attrs) + v);
    OpenWithAttributes(IdentifierP(), u, a, attrs, v);
    TokenThen(">", x);
    AndStep(OpenP(IdentifierP()), Token(">"), "<" + u, v, ("<", (a, ((), Parameters(attrs)))), x, ">");
  }

  // Tag contents: text, a run of numbers, and whole tags around them.

  /** Nothing that does not start with `<` is an element. */
  lemma NoElementAt(rec: Parser<Collada>, s: string)
    requires Progress(rec) && (|s| == 0 || s[0] != '<')
    ensures Element(rec)(s).None?
  {
    HeaderNeedsProlog(rec, s);
    TokenSpec("<", s);
    AndFirstFails(Token("<"), HeadP(IdentifierP()), s);
    TagNeedsOpen(rec, s);
    AndFirstFails(Token("<"), HeadP(ClosedIdentifierP()), s);
    AndFirstFails(OpenP(ClosedIdentifierP()), Token("/>"), s);
    MapFails(And(OpenP(ClosedIdentifierP()), Token("/>")), ClosedNode, s);
    ElementIsClosed(rec, s);
  }

  /** Text that reads as text content: non-empty, free of `<`, and starting with no whitespace, digit or `-`. */
  predicate PlainText(w: string) {
    |w| > 0 && '<' !in w && !IsWhitespace(w[0]) && !IsDigit(w[0]) && w[0] != '-'
  }

  /** Plain text up to a `<` is one string node, when no element starts there. */
  lemma TextChildren(rec: Parser<Collada>, w: string, x: string)
    requires Progress(rec) && PlainText(w) && |x| > 0 && x[0] == '<' && rec(w + x).None?
    ensures ChildrenP(rec)(w + x) == Some((x, [ColladaString(w)]))
  {
    var s := w + x;
    ProgressNoGrowth(Ws());
    ManyDelimSpec(rec, OptWs(), s);
    NoNumberAt(w, x);
    TextUpTo(w, x);
    MapStep(StringP(), Single, s, x, ColladaString(w));
    OrFirstSuccess(Map(FloatsP(), Single), Map(StringP(), Single), s);
    OrFirstSuccess(ManyDelim(rec, OptWs()), Or(Map(FloatsP(), Single), Map(StringP(), Single)), s);
  }

  /** Plain text is no run of numbers. */
  lemma NoNumberAt(w: string, x: string)
    requires PlainText(w)
    ensures Map(FloatsP(), Single)(w + x).None?
  {
    var s := w + x;
    assert s[0] == w[0];
    ScientificNeedsDigit(s);
    ProgressNoGrowth(Ws());
    ManyDelimSpec(Scientific(), Ws(), s);
    AndFirstFails(FloatRunP(), Lookahead("<"), s);
    MapFails(And(FloatRunP(), Lookahead("<")), FloatsNode, s);
    MapFails(FloatsP(), Single, s);
  }

  /** Text free of `<` and followed by `<` is read as itself. */
  lemma TextUpTo(w: string, x: string)
    requires |w| > 0 && '<' !in w && |x| > 0 && x[0] == '<'
    ensures StringP()(w + x) == Some((x, ColladaString(w)))
  {
    UntilThen('<', w, x[1..]);
    assert w + x == w + ['<'] + x[1..];
    assert ['<'] + x[1..] == x;
    MapStep(Until('<'), TextNode, w + x, x, w);
  }

  /** A tag body holding plain text is one string node. */
  lemma TextBody(rec: Parser<Collada>, w: string, x: string)
    requires Progress(rec) && PlainText(w) && |x| > 0 && x[0] == '<' && rec(w + x).None?
    ensures BodyP(rec)(w + x) == Some((x, (((), [ColladaString(w)]), ())))
  {
    assert (w + x)[0] == w[0];
    TextChildren(rec, w, x);
    BodyOfChildren(rec, w + x, x, [ColladaString(w)]);
  }

  /** Content with no whitespace around it is the body exactly as the children read it. */
  lemma BodyOfChildren(rec: Parser<Collada>, s: string, x: string, cs: seq<Collada>)
    requires Progress(rec) && |s| > 0 && !IsWhitespace(s[0]) && |x| > 0 && !IsWhitespace(x[0])
    requires ChildrenP(rec)(s) == Some((x, cs))
    ensures BodyP(rec)(s) == Some((x, (((), cs), ())))
  {
    NoWs(s);
    AndStep(OptWs(), ChildrenP(rec), s, s, (), x, cs);
    NoWs(x);
    AndStep(And(OptWs(), ChildrenP(rec)), OptWs(), s, x, ((), cs), x, ());
  }

  /** A written run of numbers starts with its first numeral. */
  lemma RunStart(ns: seq<Numeral>, x: string)
    requires |ns| > 0 && WellFormedNumeral(ns[0])
    ensures |RunText(ns) + x| > 0 && !IsWhitespace((RunText(ns) + x)[0]) && (RunText(ns) + x)[0] != '<'
  {
    assert RunText(ns) + x == NumeralText(ns[0]) + (RunTail(ns[1..]) + x);
    NumeralStart(ns[0], RunTail(ns[1..]) + x);
  }

  /** Where a run of numbers reads and no element starts, the children are that one run. */
  lemma FloatsChildren(rec: Parser<Collada>, s: string, x: string, c: Collada)
    requires Progress(rec) && rec(s).None? && FloatsP()(s) == Some((x, c))
    ensures ChildrenP(rec)(s) == Some((x, [c]))
  {
    ProgressNoGrowth(Ws());
    ManyDelimSpec(rec, OptWs(), s);
    MapStep(FloatsP(), Single, s, x, c);
    OrFirstSuccess(Map(FloatsP(), Single), Map(StringP(), Single), s);
    OrFirstSuccess(ManyDelim(rec, OptWs()), Or(Map(FloatsP(), Single), Map(StringP(), Single)), s);
  }

  /** An open tag with attributes and a name free of `?` does not start with `<?`. */
  lemma OpenStart(a: string, attrs: seq<Attribute>, x: string)
    requires '?' !in a
    ensures !("<?" <= "<" + a + SpacedAttributes(attrs) + ">" + x)
  {
    HeadText(a, attrs, ">", x);
    assert (a + (SpacedAttributes(attrs) + (">" + x)))[0] ==
      if |a| > 0 then a[0] else if |attrs| > 0 then ' ' else '>';
    NoPrologAfter(a + (SpacedAttributes(attrs) + (">" + x)));
  }

  /**
   * `<a a1="v1" ... ak="vk">` followed by a body and `</b>` is an open tag carrying what the
   * attributes read as and what the body reads as; the closing name `b` is not compared with `a`.
   */
  lemma TagWithAttributes(rec: Parser<Collada>, a: string, attrs: seq<Attribute>, x: string, cs: seq<Collada>,
                          b: string, t: string)
    requires Progress(rec)
    requires '/' !in a && '>' !in a && ' ' !in a && '?' !in a && '>' !in b
    requires forall i :: 0 <= i < |attrs| ==> WellFormedAttribute(attrs[i])
    requires BodyP(rec)(x) == Some(("</" + b + ">" + t, (((), cs), ())))
    ensures Element(rec)("<" + a + SpacedAttributes(attrs) + ">" + x) ==
      Some((t, ColladaTag(a, Parameters(attrs), cs)))
  {
    var s := "<" + a + SpacedAttributes(attrs) + ">" + x;
    OpenStart(a, attrs, x);
    HeaderNeedsProlog(rec, s);
    OpenHeadWith(a, attrs, x);
    CloseOf(b, t);
    TagReads(rec, s, x, a, Parameters(attrs), "</" + b + ">" + t, cs, b + ['>'] + t, b, ">" + t, t);
    ElementIsTag(rec, s, (t, ColladaTag(a, Parameters(attrs), cs)));
  }

  lemma TagText(a: string, attrs: seq<Attribute>, w: string, b: string, t: string)
    ensures "<" + a + SpacedAttributes(attrs) + ">" + w + "</" + b + ">" + t ==
      "<" + a + SpacedAttributes(attrs) + ">" + (w + ("</" + b + ">" + t))
  {
  }

  /** The document parser reads a tag with attributes holding plain text as one string node. */
  lemma TextTagDocument(a: string, attrs: seq<Attribute>, w: string, b: string, t: string)
    requires '/' !in a && '>' !in a && ' ' !in a && '?' !in a && '>' !in b && PlainText(w)
    requires forall i :: 0 <= i < |attrs| ==> WellFormedAttribute(attrs[i])
    ensures ColladaP("<" + a + SpacedAttributes(attrs) + ">" + w + "</" + b + ">" + t) ==
      Some((t, ColladaTag(a, Parameters(attrs), [ColladaString(w)])))
  {
    var y := "</" + b + ">" + t;
    var x := w + y;
    TagText(a, attrs, w, b, t);
    ColladaUnfolds(x);
    assert x[0] == w[0];
    NoElementAt(ColladaP, x);
    TextBody(ColladaP, w, y);
    TagWithAttributes(ColladaP, a, attrs, x, [ColladaString(w)], b, t);
    ColladaUnfolds("<" + a + SpacedAttributes(attrs) + ">" + x);
  }

  /** Where a run of numbers reads and no element starts, the body is that one run. */
  lemma FloatsBodyOf(rec: Parser<Collada>, s: string, x: string, c: Collada)
    requires Progress(rec) && rec(s).None? && FloatsP()(s) == Some((x, c))
    requires |s| > 0 && !IsWhitespace(s[0]) && |x| > 0 && !IsWhitespace(x[0])
    ensures BodyP(rec)(s) == Some((x, (((), [c]), ())))
  {
    FloatsChildren(rec, s, x, c);
    BodyOfChildren(rec, s, x, [c]);
  }

  /** Inside a document, content that reads as a run of numbers is a body holding that one run. */
  lemma FloatsContent(x: string, y: string, c: Collada)
    requires |x| > 0 && !IsWhitespace(x[0]) && x[0] != '<' && |y| > 0 && !IsWhitespace(y[0])
    requires FloatsP()(x) == Some((y, c))
    ensures Progress(ColladaP) && BodyP(ColladaP)(x) == Some((y, (((), [c]), ())))
  {
    ColladaUnfolds(x);
    NoElementAt(ColladaP, x);
    FloatsBodyOf(ColladaP, x, y, c);
  }

  lemma ClosingStart(b: string, t: string)
    ensures |"</" + b + ">" + t| > 0 && ("</" + b + ">" + t)[0] == '<'
  {
  }

  /** The document parser reads a tag whose content reads as a run of numbers as a tag holding that one run. */
  lemma FloatsTagOf(a: string, attrs: seq<Attribute>, w: string, c: Collada, b: string, t: string)
    requires '/' !in a && '>' !in a && ' ' !in a && '?' !in a && '>' !in b
    requires forall i :: 0 <= i < |attrs| ==> WellFormedAttribute(attrs[i])
    requires |w + ("</" + b + ">" + t)| > 0 && !IsWhitespace((w + ("</" + b + ">" + t))[0])
    requires (w + ("</" + b + ">" + t))[0] != '<'
    requires FloatsP()(w + ("</" + b + ">" + t)) == Some(("</" + b + ">" + t, c))
    ensures ColladaP("<" + a + SpacedAttributes(attrs) + ">" + w + "</" + b + ">" + t) ==
      Some((t, ColladaTag(a, Parameters(attrs), [c])))
  {
    var y := "</" + b + ">" + t;
    var x := w + y;
    TagText(a, attrs, w, b, t);
    ClosingStart(b, t);
    FloatsContent(x, y, c);
    TagWithAttributes(ColladaP, a, attrs, x, [c], b, t);
    ColladaUnfolds("<" + a + SpacedAttributes(attrs) + ">" + x);
  }

  /** The document parser reads a tag with attributes holding a run of numbers as one node of their values. */
  lemma FloatsTagDocument(a: string, attrs: seq<Attribute>, ns: seq<Numeral>, b: string, t: string)
    requires '/' !in a && '>' !in a && ' ' !in a && '?' !in a && '>' !in b
    requires forall i :: 0 <= i < |attrs| ==> WellFormedAttribute(attrs[i])
    requires |ns| > 0 && forall i :: 0 <= i < |ns| ==> WellFormedNumeral(ns[i])
    ensures ColladaP("<" + a + SpacedAttributes(attrs) + ">" + RunText(ns) + "</" + b + ">" + t) ==
      Some((t, ColladaTag(a, Parameters(attrs), [ColladaFloats(RunValues(ns))])))
  {
    var y := "</" + b + ">" + t;
    RunStart(ns, y);
    FloatsOf(ns, y);
    FloatsTagOf(a, attrs, RunText(ns), ColladaFloats(RunValues(ns)), b, t);
  }

  // The documents of the parser's own examples.

  /** `<test hello="world">content</test>` is a tag with one text attribute holding the text `content`. */
  lemma AttributedTextExample()
    ensures ColladaP("<test hello=\"world\">content</test>") ==
      Some(("", ColladaTag("test", [ParameterString("hello", "world")], [ColladaString("content")])))
  {
    var attrs := [Attribute("hello", "world")];
    ExampleAttributes();
    ExampleTagParts();
    AttributedTextExampleText();
    TextTagDocument("test", attrs, "content", "test", "");
  }

  /** The one attribute of the examples is well formed and reads as text. */
  lemma ExampleAttributes()
    ensures forall i :: 0 <= i < |[Attribute("hello", "world")]| ==> WellFormedAttribute([Attribute("hello", "world")][i])
    ensures SpacedAttributes([Attribute("hello", "world")]) == " hello=\"world\""
    ensures Parameters([Attribute("hello", "world")]) == [ParameterString("hello", "world")]
  {
    ExampleAttributeForm();
    assert SpacedAttributes([Attribute("hello", "world")][1..]) == "";
  }

  lemma ExampleAttributeForm()
    ensures WellFormedAttribute(Attribute("hello", "world")) && !IsIntegerText("world")
  {
  }

  lemma ExampleTagParts()
    ensures '/' !in "test" && '>' !in "test" && ' ' !in "test" && '?' !in "test" && PlainText("content")
  {
  }

  lemma AttributedTextExampleText()
    ensures "<test hello=\"world\">content</test>" ==
      "<" + "test" + " hello=\"world\"" + ">" + "content" + "</" + "test" + ">" + ""
  {
  }

  /** A document that starts with a prolog `<?h?>` is a header holding the document that follows it. */
  lemma HeaderOf(h: string, u: string, t: string, c: Collada)
    requires '?' !in h && |u| > 0 && !IsWhitespace(u[0]) && ColladaP(u) == Some((t, c))
    ensures ColladaP("<?" + h + "?>" + u) == Some((t, ColladaHeader(c)))
  {
    var s := "<?" + h + "?>" + u;
    PrologOf(h, u);
    ColladaUnfolds(s);
    HeaderReads(ColladaP, s, u, ((("<?", h), "?>"), ()), t, c);
  }

  lemma HeaderExampleParts()
    ensures '?' !in "header" && !IsWhitespace("<test hello=\"world\">content</test>"[0])
  {
  }

  /** `<?header?><test hello="world">content</test>` is a header holding that tag. */
  lemma HeaderExample()
    ensures ColladaP("<?" + "header" + "?>" + "<test hello=\"world\">content</test>") ==
      Some(("", ColladaHeader(ColladaTag("test", [ParameterString("hello", "world")], [ColladaString("content")]))))
  {
    HeaderExampleParts();
    AttributedTextExample();
    HeaderOf("header", "<test hello=\"world\">content</test>", "",
      ColladaTag("test", [ParameterString("hello", "world")], [ColladaString("content")]));
  }
}

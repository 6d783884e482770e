/** The Java objects that lang.celadon passes around as Object: boxed numbers and booleans,
    strings, characters, Syntax constants, tokens, token lists, Cel and Name cells, handlers and
    foreign objects. Object.equals, Object.hashCode and Object.toString dispatch on the class,
    and Cel and Name forward them to the object they refer to, so the three are defined here
    together, one case per class.

    What the model cannot compute is carried inside the value: a floating value's bit pattern,
    its longValue() and its decimal text; a foreign object's identity and its toString(). */
module Objects {
  import opened Wrappers
  import opened JavaLang
  import Lexeme

  /** The integral java.lang.Number classes. */
  datatype IntClass = Long | Integer | Short | Byte

  /** The floating java.lang.Number classes. */
  datatype FloatClass = Double | Float

  /** lang.celadon.Syntax. GAP, NOW, ACCESS and EMPTY are named by Cel.toString but are not
      declared in Syntax.java; they are added here. */
  datatype Syntax =
    | OpenParenthesis | CloseParenthesis | OpenBrace | CloseBrace | OpenBracket | CloseBracket
    | EvalLess | EvalMore | Operator | Symbol | Split | Comma
    | Gap | Now | Access | Empty

  datatype Obj =
    | Null
    | Bool(b: bool)
    | Integral(icls: IntClass, n: int)
      /** bits: the pattern Double.doubleToLongBits (or, in the low half, Float.floatToIntBits)
          gives; whole: longValue(); text: toString(). */
    | Floating(fcls: FloatClass, bits: bv64, whole: int, text: string)
    | Str(s: string)
    | Chr(c: char)
    | Syn(syntax: Syntax)
    | Tok(token: Token)
      /** A TList of tokens. */
    | TokList(items: seq<Token>)
    | CelObj(cel: Cel)
    | NameObj(name: Name)
      /** An IMorph implementation, known by its class, its identity and its toString(). */
    | Handler(hcls: nat, id: nat, text: string)
      /** Any other object, known the same way. */
    | Foreign(ocls: nat, id: nat, text: string)

  /** lang.celadon.Token: the four fields it shares with celadon.Token, plus the dispatch
      level `special` and the payload `solid` that the interpreter reads (both are used but not
      declared in the shown Token.java). special > 0 marks a stable value, special < 0 a token
      whose solid is an IMorph handler. */
  datatype Token = Token(contents: Option<string>, bracket: Option<string>, mode: Option<string>,
                         closing: bool, special: int, solid: Obj)
  {
    function Shape(): Lexeme.Token
    {
      Lexeme.Token(contents, bracket, mode, closing)
    }
  }

  /** Indirection cells: a title and the object they refer to. */
  datatype Cel = Cel(title: Option<string>, ref: Obj)
  datatype Name = Name(title: Option<string>, ref: Obj)

  /** Token.stable(item) (not in the shown source): a resolved value token. Only the sign of
      its level matters to the code shown, so the level is 1. */
  function Stable(item: Obj): (t: Token)
    ensures t.special > 0 && t.solid == item
  {
    Token(None, None, None, false, 1, item)
  }

  /** Token.RESERVED (not in the shown source): the marker that ends a reserved binding list.
      The source compares it by identity; here a token is the marker when it is equal to it. */
  const RESERVED: Token := Token(None, None, None, false, 0, Null)

  // ---- getClass() ----

  datatype JClass =
    | BooleanClass | NumberClass(i: IntClass) | FloatingClass(f: FloatClass)
    | StringClass | CharacterClass | SyntaxClass | TokenClass | TListClass
    | CelClass | NameClass | HandlerClass(h: nat) | OtherClass(o: nat)

  function ClassOf(a: Obj): JClass
    requires a != Null
  {
    match a
    case Bool(_) => BooleanClass
    case Integral(c, _) => NumberClass(c)
    case Floating(c, _, _, _) => FloatingClass(c)
    case Str(_) => StringClass
    case Chr(_) => CharacterClass
    case Syn(_) => SyntaxClass
    case Tok(_) => TokenClass
    case TokList(_) => TListClass
    case CelObj(_) => CelClass
    case NameObj(_) => NameClass
    case Handler(h, _, _) => HandlerClass(h)
    case Foreign(o, _, _) => OtherClass(o)
  }

  // ---- equals ----

  /** a.equals(b) for a non-null a. Values compare by value (a floating value by its bits),
      tokens and token lists by Token.equals, Cel and Name by their own equals, handlers and
      foreign objects by identity. */
  predicate Equals(a: Obj, b: Obj)
    requires a != Null
    decreases a, 1
  {
    match a
    case Floating(c, bits, _, _) => b.Floating? && b.fcls == c && b.bits == bits
    case Tok(t) => TokenEquals(t, b)
    case TokList(items) =>
      b.TokList? && |items| == |b.items|
      && forall i :: 0 <= i < |items| ==> items[i].Shape() == b.items[i].Shape()
    case CelObj(c) => CelEquals(c, b)
    case NameObj(n) => NameEquals(n, b)
    case _ => a == b
  }

  /** Token.equals(o): o must be a Token, and the four shared fields must agree; the level and
      the payload play no part. */
  predicate TokenEquals(t: Token, o: Obj)
  {
    o.Tok? && Lexeme.Equals(t.Shape(), Some(o.token.Shape()))
  }

  /** Cel.equals(o). A cell with a referent equals another cell whose referent it equals,
      and equals a non-cell of the referent's own class that the referent equals. A cell with
      no referent equals null and every cell with no referent. */
  predicate CelEquals(c: Cel, o: Obj)
    decreases c, 0
  {
    if c.ref != Null then
      if o == Null then false
      else if o.CelObj? then Equals(c.ref, o.cel.ref)
      else ClassOf(c.ref) == ClassOf(o) && Equals(c.ref, o)
    else o == Null || (o.CelObj? && o.cel.ref == Null)
  }

  /** Name.equals(o): the same rule as Cel.equals, for Name. */
  predicate NameEquals(n: Name, o: Obj)
    decreases n, 0
  {
    if n.ref != Null then
      if o == Null then false
      else if o.NameObj? then Equals(n.ref, o.name.ref)
      else ClassOf(n.ref) == ClassOf(o) && Equals(n.ref, o)
    else o == Null || (o.NameObj? && o.name.ref == Null)
  }

  // ---- hashCode ----

  /** An identity hash: the model takes the object's identity modulo 2^32. */
  function IdentityHash(id: nat): bv32
  {
    (id % TWO_32) as bv32
  }

  function SyntaxOrdinal(s: Syntax): nat
  {
    match s
    case OpenParenthesis => 0 case CloseParenthesis => 1 case OpenBrace => 2
    case CloseBrace => 3 case OpenBracket => 4 case CloseBracket => 5
    case EvalLess => 6 case EvalMore => 7 case Operator => 8 case Symbol => 9
    case Split => 10 case Comma => 11 case Gap => 12 case Now => 13
    case Access => 14 case Empty => 15
  }

  /** a.hashCode() for a non-null a; Objects.hashCode(null) is 0. */
  function Hash(a: Obj): bv32
    decreases a, 1
  {
    match a
    case Null => 0
    case Bool(b) => if b then 1231 else 1237
    case Integral(c, n) => IntegralHash(c, n)
    case Floating(c, bits, _, _) => FloatingHash(c, bits)
    case Str(s) => StringHash(s)
    case Chr(ch) => CharUnit(ch)
    case Syn(s) => IdentityHash(SyntaxOrdinal(s))
    case Tok(t) => TokenHash(t)
    case TokList(items) => ListHash(1, TokenHashes(items))
    case CelObj(c) => CelHash(c)
    case NameObj(n) => NameHash(n)
    case Handler(_, id, _) => IdentityHash(id)
    case Foreign(_, id, _) => IdentityHash(id)
  }

  /** Long.hashCode folds the halves; Integer, Short and Byte hash to their value. */
  function IntegralHash(c: IntClass, n: int): bv32
  {
    if c == Long then LongHash(n) else (n % TWO_32) as bv32
  }

  /** Double.hashCode folds the halves of its bits; Float.hashCode is its 32 bits. */
  function FloatingHash(c: FloatClass, bits: bv64): bv32
  {
    if c == Double then Low32(bits ^ (bits >> 32)) else Low32(bits)
  }

  /** Token.hashCode: the hash of the four shared fields. */
  function TokenHash(t: Token): bv32
  {
    Lexeme.HashOf(t.Shape())
  }

  /** The element hashes of a token list, in order. */
  function TokenHashes(items: seq<Token>): (r: seq<bv32>)
    ensures |r| == |items|
  {
    if items == [] then [] else [TokenHash(items[0])] + TokenHashes(items[1..])
  }

  /** List.hashCode over the element hashes: h = 31 * h + e, starting from 1. */
  function ListHash(h: bv32, hashes: seq<bv32>): bv32
    decreases |hashes|
  {
    if hashes == [] then h else ListHash(31 * h + hashes[0], hashes[1..])
  }

  /** Cel.hashCode: the referent's hash, 0 without a referent. */
  function CelHash(c: Cel): bv32
    decreases c, 0
  {
    if c.ref != Null then Hash(c.ref) else 0
  }

  /** Name.hashCode: the referent's hash, 0 without a referent. */
  function NameHash(n: Name): bv32
    decreases n, 0
  {
    if n.ref != Null then Hash(n.ref) else 0
  }

  // ---- toString (None stands for a null String) ----

  /** The names Enum.toString gives the Syntax constants. */
  function SyntaxName(s: Syntax): string
  {
    match s
    case OpenParenthesis => "OPEN_PARENTHESIS" case CloseParenthesis => "CLOSE_PARENTHESIS"
    case OpenBrace => "OPEN_BRACE" case CloseBrace => "CLOSE_BRACE"
    case OpenBracket => "OPEN_BRACKET" case CloseBracket => "CLOSE_BRACKET"
    case EvalLess => "EVAL_LESS" case EvalMore => "EVAL_MORE" case Operator => "OPERATOR"
    case Symbol => "SYMBOL" case Split => "SPLIT" case Comma => "COMMA"
    case Gap => "GAP" case Now => "NOW" case Access => "ACCESS" case Empty => "EMPTY"
  }

  /** Texts separated by single spaces. */
  function Joined(parts: seq<string>): string
  {
    if |parts| == 0 then "" else Joined(parts[..|parts| - 1]) + (if |parts| == 1 then "" else " ") + parts[|parts| - 1]
  }

  /** Joining one more part adds a space and the part. */
  lemma JoinedStep(ps: seq<string>, i: int)
    requires 0 <= i < |ps|
    ensures Joined(ps[..i + 1]) == if i == 0 then ps[0] else Joined(ps[..i]) + " " + ps[i]
  {
    var front := ps[..i + 1];
    assert front[..i] == ps[..i] && front[i] == ps[i];
    if i == 0 {
      assert ps[..0] == [];
    }
  }

  function TokenTexts(items: seq<Token>): (r: seq<string>)
    ensures |r| == |items|
    ensures forall i :: 0 <= i < |items| ==> r[i] == Lexeme.ToString(items[i].Shape())
  {
    if items == [] then [] else TokenTexts(items[..|items| - 1]) + [Lexeme.ToString(items[|items| - 1].Shape())]
  }

  /** TList.toString: "[", the tokens joined by single spaces, "]". */
  function ListText(items: seq<Token>): string
  {
    "[" + Joined(TokenTexts(items)) + "]"
  }

  /** String.valueOf of a possibly-null string, as string concatenation renders it. */
  function Shown(s: Option<string>): string
  {
    if s.Some? then s.value else "null"
  }

  /** a.toString() for a non-null a. */
  function ToString(a: Obj): Option<string>
    requires a != Null
    decreases a, 1
  {
    match a
    case Bool(b) => Some(if b then "true" else "false")
    case Integral(_, n) => Some(DecimalString(n))
    case Floating(_, _, _, text) => Some(text)
    case Str(s) => Some(s)
    case Chr(ch) => Some([ch])
    case Syn(s) => Some(SyntaxName(s))
    case Tok(t) => Some(Lexeme.ToString(t.Shape()))
    case TokList(items) => Some(ListText(items))
    case CelObj(c) => CelToString(c)
    case NameObj(n) => NameToString(n)
    case Handler(_, _, text) => Some(text)
    case Foreign(_, _, text) => Some(text)
  }

  /** The glyph Cel.toString prints for a Syntax referent; None for the constants it leaves
      to Enum.toString, and for SYMBOL, which prints the title. */
  function SyntaxGlyph(s: Syntax): Option<string>
  {
    match s
    case Gap => Some(":") case Now => Some("@") case Access => Some(".") case Empty => Some("()")
    case OpenParenthesis => Some("(") case CloseParenthesis => Some(")")
    case OpenBracket => Some("[") case CloseBracket => Some("]")
    case OpenBrace => Some("{") case CloseBrace => Some("}")
    case _ => None
  }

  /** Cel.toString. */
  function CelToString(c: Cel): Option<string>
    decreases c, 0
  {
    if c.ref == Null then Some(if c.title.None? then "null" else c.title.value + " = UNBOUND")
    else if c.ref == Syn(Symbol) then c.title
    else if c.ref.Syn? && SyntaxGlyph(c.ref.syntax).Some? then SyntaxGlyph(c.ref.syntax)
    else if c.ref.Str? then Some("'" + c.ref.s + "'")
    else if c.ref.Chr? then Some("`" + [c.ref.c] + "`")
    else ToString(c.ref)
  }

  /** Name.toString. */
  function NameToString(n: Name): Option<string>
    decreases n, 0
  {
    if n.ref == Null then Some(if n.title.None? then "null" else n.title.value + " = UNBOUND")
    else ToString(n.ref)
  }

  // ---- laws ----

  /** equals is reflexive, so the identity test that opens Cel.equals and Name.equals never
      decides anything the rest of the method would not. */
  lemma {:induction false} EqualsReflexive(a: Obj)
    requires a != Null
    ensures Equals(a, a)
    decreases a
  {
    match a
    case CelObj(c) =>
      if c.ref != Null {
        EqualsReflexive(c.ref);
      }
    case NameObj(n) =>
      if n.ref != Null {
        EqualsReflexive(n.ref);
      }
    case _ =>
  }

  /** Token lists whose tokens agree on the four shared fields have the same element hashes. */
  lemma {:induction false} HashesOfSameShapes(xs: seq<Token>, ys: seq<Token>)
    requires |xs| == |ys|
    requires forall i :: 0 <= i < |xs| ==> xs[i].Shape() == ys[i].Shape()
    ensures TokenHashes(xs) == TokenHashes(ys)
    decreases |xs|
  {
    if xs != [] {
      assert xs[0].Shape() == ys[0].Shape();
      HashesOfSameShapes(xs[1..], ys[1..]);
    }
  }

  /** For the classes that hold no other object, equal objects hash alike. */
  lemma FlatHashAgreesWithEquals(a: Obj, b: Obj)
    requires a != Null && !a.CelObj? && !a.NameObj? && !a.TokList? && Equals(a, b)
    ensures Hash(a) == Hash(b)
  {
    if a.Floating? {
      assert b.Floating? && a.fcls == b.fcls && a.bits == b.bits;
    } else if a.Tok? {
      assert a.token.Shape() == b.token.Shape();
    } else {
      assert a == b;
    }
  }

  /** The hashCode contract: objects that are equal have equal hashes. A cell with no referent
      equals null, whose hash Objects.hashCode takes to be 0, so b may be null. */
  lemma {:induction false} HashAgreesWithEquals(a: Obj, b: Obj)
    requires a != Null && Equals(a, b)
    ensures Hash(a) == Hash(b)
    decreases a
  {
    if a.TokList? {
      HashesOfSameShapes(a.items, b.items);
    } else if a.CelObj? {
      var c := a.cel;
      if c.ref != Null {
        if b.CelObj? {
          HashAgreesWithEquals(c.ref, b.cel.ref);
        } else {
          HashAgreesWithEquals(c.ref, b);
        }
      }
    } else if a.NameObj? {
      var n := a.name;
      if n.ref != Null {
        if b.NameObj? {
          HashAgreesWithEquals(n.ref, b.name.ref);
        } else {
          HashAgreesWithEquals(n.ref, b);
        }
      }
    } else {
      FlatHashAgreesWithEquals(a, b);
    }
  }

  /** Two cells with referents are equal exactly when their referents are, and in that case
      they hash alike; cells without a referent are all equal to each other and to null. */
  lemma CelEqualityByReferent(c: Cel, d: Cel)
    ensures c.ref != Null && d.ref != Null ==>
              (CelEquals(c, CelObj(d)) <==> Equals(c.ref, d.ref))
    ensures c.ref == Null ==> CelEquals(c, Null) && (CelEquals(c, CelObj(d)) <==> d.ref == Null)
    ensures CelEquals(c, CelObj(d)) ==> CelHash(c) == CelHash(d)
  {
    if CelEquals(c, CelObj(d)) {
      HashAgreesWithEquals(CelObj(c), CelObj(d));
    }
  }

  /** The same for Name. */
  lemma NameEqualityByReferent(n: Name, m: Name)
    ensures n.ref != Null && m.ref != Null ==>
              (NameEquals(n, NameObj(m)) <==> Equals(n.ref, m.ref))
    ensures n.ref == Null ==> NameEquals(n, Null) && (NameEquals(n, NameObj(m)) <==> m.ref == Null)
    ensures NameEquals(n, NameObj(m)) ==> NameHash(n) == NameHash(m)
  {
    if NameEquals(n, NameObj(m)) {
      HashAgreesWithEquals(NameObj(n), NameObj(m));
    }
  }

  /** An example of one-sided equality. A cell stands in for its referent on the cell's side
      only: a cell holding "a" equals the string "a", and the string does not equal the cell. */
  lemma CelEqualityIsOneSided()
    ensures CelEquals(Cel(Some("x"), Str("a")), Str("a"))
    ensures !Equals(Str("a"), CelObj(Cel(Some("x"), Str("a"))))
    ensures !CelEquals(Cel(Some("x"), Str("a")), Chr('a'))
  {
  }

  /** How a cell renders its referent, for every title: unbound cells, any text in single
      quotes, any character in back quotes, the title of a symbol, and the referent's own
      rendering for every referent that is neither text, a character, a symbol nor a glyph. */
  lemma CelRenderings(title: Option<string>, t: string, s: string, c: char, r: Obj)
    ensures CelToString(Cel(None, Null)) == Some("null")
    ensures CelToString(Cel(Some(t), Null)) == Some(t + " = UNBOUND")
    ensures CelToString(Cel(title, Str(s))) == Some("'" + s + "'")
    ensures CelToString(Cel(title, Chr(c))) == Some("`" + [c] + "`")
    ensures CelToString(Cel(title, Syn(Symbol))) == title
    ensures r != Null && !r.Str? && !r.Chr? && !(r.Syn? && (r.syntax == Symbol || SyntaxGlyph(r.syntax).Some?))
            ==> CelToString(Cel(title, r)) == ToString(r)
  {
  }

  /** A cell holding one of the ten punctuation values renders as its glyph, whatever its title. */
  lemma CelGlyphs(title: Option<string>)
    ensures CelToString(Cel(title, Syn(Gap))) == Some(":") && CelToString(Cel(title, Syn(Now))) == Some("@")
    ensures CelToString(Cel(title, Syn(Access))) == Some(".") && CelToString(Cel(title, Syn(Empty))) == Some("()")
    ensures CelToString(Cel(title, Syn(OpenParenthesis))) == Some("(")
    ensures CelToString(Cel(title, Syn(CloseParenthesis))) == Some(")")
    ensures CelToString(Cel(title, Syn(OpenBracket))) == Some("[")
    ensures CelToString(Cel(title, Syn(CloseBracket))) == Some("]")
    ensures CelToString(Cel(title, Syn(OpenBrace))) == Some("{")
    ensures CelToString(Cel(title, Syn(CloseBrace))) == Some("}")
  {
  }

  /** Examples of the fallback: a cell holding COMMA or true renders as the referent does. */
  lemma CelFallbackExamples(title: Option<string>)
    ensures CelToString(Cel(title, Syn(Comma))) == Some("COMMA")
    ensures CelToString(Cel(title, Bool(true))) == Some("true")
  {
  }

  /** A Name renders its referent as the referent itself renders, whatever its title; only an
      unbound Name shows its title. */
  lemma NameRendersReferent(n: Name, title: Option<string>)
    ensures n.ref != Null ==> NameToString(n) == NameToString(Name(title, n.ref)) == ToString(n.ref)
    ensures n.ref == Null ==> NameToString(n).Some?
  {
  }

  /** Cel.HasherByName.hash: the CrossHash of the title for a cell, 0 for null and for every
      other object. CrossHash is not part of this model and is a parameter. */
  function HashByName(data: Obj, crossHash: Option<string> -> bv32): (h: bv32)
    ensures !data.CelObj? ==> h == 0
    ensures data.CelObj? ==> h == crossHash(data.cel.title)
  {
    if data.CelObj? then crossHash(data.cel.title) else 0
  }
}

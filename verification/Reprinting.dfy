/** Whatever parses can be printed, and printing it never nests deeper than its source did. */
module Reprinting {
  import opened Syntax
  import opened Grammar
  import opened Printing
  import opened RoundTrip

  /** The words a lexer puts under each kind. */
  predicate WellWritten(t: Token) {
    && (t.kind == Number || t.kind == Ident ==> t.text.Other?)
    && (t.kind == Keyword ==> t.text.Other? || KeywordText(t.text))
  }

  ghost predicate Written(ts: seq<Token>) {
    forall i :: 0 <= i < |ts| ==> WellWritten(ts[i])
  }

  lemma WrittenOn(ts: seq<Token>)
    requires Lexed(ts) && Written(ts)
    ensures WellWritten(ts[0])
    ensures ts[0].text != Nothing ==> Written(Skip(ts))
    ensures ts[0].kind != Eof ==> Written(SkipAny(ts))
  {
  }

  // ---------------------------------------------------------------- nesting at different levels

  lemma NestingSteps(e: Expr)
    ensures Nesting(e, 10) <= Nesting(e, 11) <= Nesting(e, 12) <= 1 + Nesting(e, 0)
    ensures Nesting(e, 0) <= 1 + Nesting(e, 1)
    ensures forall q :: 1 <= q <= 9 ==> Nesting(e, q) <= 1 + Nesting(e, 10)
  {
    hide Nesting;
    NestingUnfolds(e, 0);
    NestingUnfolds(e, 1);
    NestingUnfolds(e, 10);
    NestingUnfolds(e, 11);
    NestingUnfolds(e, 12);
    forall q | 1 <= q <= 9
      ensures Nesting(e, q) <= 1 + Nesting(e, 10)
    {
      NestingUnfolds(e, q);
    }
  }

  lemma NestingGrows(e: Expr, q: int, r: int)
    requires 1 <= q <= r <= 9
    ensures Nesting(e, q) <= Nesting(e, r)
  {
    hide Nesting;
    NestingUnfolds(e, q);
    NestingUnfolds(e, r);
    NestingUnfolds(e, 0);
    NestingUnfolds(e, 1);
  }

  // ---------------------------------------------------------------- level by level

  /** A tree read at depth `d` that prints at a level without exceeding the limit, with well-written tokens left. */
  ghost predicate Tight(r: Parsed<Expr>, lvl: int, d: int) {
    r.Got? ==> Printable(r.value) && d + Nesting(r.value, lvl) <= MaxDepth && Written(r.rest)
  }

  lemma {:induction false} TernaryTight(ts: seq<Token>, d: nat)
    requires Lexed(ts) && Written(ts)
    ensures Tight(ParseTernary(ts, d), 0, d)
    decreases |ts|, 4
  {
    hide ParseTernary, ParseBinary, Nesting, Printable, Written, Level;
    ConditionalUnfolds(ts, d);
    BinaryTight(ts, 0, d + 1);
    var c := ParseBinary(ts, 0, d + 1);
    if d + 1 <= MaxDepth && c.Got? {
      if At(c.rest, Question) {
        WrittenOn(c.rest);
        BranchesTight(c.value, Skip(c.rest), d);
      } else {
        NestingSteps(c.value);
      }
    }
  }

  /** The two branches of a conditional, after the question mark. */
  lemma {:induction false} BranchesTight(c: Expr, ts: seq<Token>, d: nat)
    requires Lexed(ts) && Written(ts) && Printable(c) && d + 1 + Nesting(c, 1) <= MaxDepth
    ensures var y := ParseTernary(ts, d + 1);
            y.Got? && At(y.rest, Colon) ==>
              var n := ParseTernary(Skip(y.rest), d + 1);
              n.Got? ==> Tight(Got(Cond(c, y.value, n.value), n.rest), 0, d)
    decreases |ts|, 5
  {
    hide ParseTernary, Nesting, Written, Level;
    TernaryTight(ts, d + 1);
    var y := ParseTernary(ts, d + 1);
    if y.Got? && At(y.rest, Colon) {
      WrittenOn(y.rest);
      var no := Skip(y.rest);
      TernaryTight(no, d + 1);
      var n := ParseTernary(no, d + 1);
      if n.Got? {
        NestingUnfolds(Cond(c, y.value, n.value), 0);
        CondLevel(c, y.value, n.value);
      }
    }
  }

  lemma CondLevel(c: Expr, y: Expr, n: Expr)
    ensures Level(Cond(c, y, n)) == 0
  {
  }

  lemma {:induction false} BinaryTight(ts: seq<Token>, min: int, d: nat)
    requires Lexed(ts) && Written(ts) && 0 <= min <= 9
    ensures Tight(ParseBinary(ts, min, d), if min == 0 then 1 else min, d)
    ensures ParseBinary(ts, min, d).Got? ==> PeekPrec(ParseBinary(ts, min, d).rest) < (if min == 0 then 1 else min)
    decreases |ts|, 3
  {
    hide ParseUnary, BinaryLoop, Nesting, Printable;
    UnaryTight(ts, d + 1);
    var l := ParseUnary(ts, d + 1);
    if d + 1 <= MaxDepth && l.Got? {
      NestingSteps(l.value);
      LoopTight(l.value, l.rest, min, 9, d);
    }
  }

  lemma {:induction false} LoopTight(left: Expr, ts: seq<Token>, min: int, b: int, d: nat)
    requires Lexed(ts) && Written(ts) && 0 <= min <= b <= 9 && 1 <= b
    requires PeekPrec(ts) <= b && Printable(left) && d + Nesting(left, b) <= MaxDepth
    ensures var r := BinaryLoop(left, ts, min, d + 1);
            Tight(r, if min == 0 then 1 else min, d) && (r.Got? ==> PeekPrec(r.rest) < (if min == 0 then 1 else min))
    decreases |ts|, 3
  {
    hide ParseBinary, Nesting;
    var q := if min == 0 then 1 else min;
    var p := PeekPrec(ts);
    NestingGrows(left, q, b);
    if p >= min && p >= 0 {
      NestingGrows(left, p, b);
      BinaryTight(Skip(ts), p + 1, d + 1);
      var r := ParseBinary(Skip(ts), p + 1, d + 1);
      if r.Got? {
        var e := Bin(ts[0].text.op, left, r.value);
        NestingUnfolds(e, p);
        LoopTight(e, r.rest, min, p, d);
      }
    }
  }

  lemma {:induction false} UnaryTight(ts: seq<Token>, d: nat)
    requires Lexed(ts) && Written(ts)
    ensures Tight(ParseUnary(ts, d), 10, d)
    decreases |ts|, 2
  {
    hide ParsePostfix, Nesting;
    var op := UnaryAt(ts[0]);
    if op != [] {
      UnaryTight(Skip(ts), d);
      var e := ParseUnary(Skip(ts), d);
      if e.Got? {
        NestingUnfolds(Unary(op[0], e.value), 10);
      }
    } else {
      PostfixTight(ts, d);
      var e := ParsePostfix(ts, d);
      if e.Got? {
        NestingSteps(e.value);
      }
    }
  }

  lemma {:induction false} PostfixTight(ts: seq<Token>, d: nat)
    requires Lexed(ts) && Written(ts)
    ensures Tight(ParsePostfix(ts, d), 11, d)
    decreases |ts|, 1
  {
    hide ParsePrimary, PostfixLoop, Nesting, Printable;
    PrimaryTight(ts, d);
    var e := ParsePrimary(ts, d);
    if e.Got? {
      NestingSteps(e.value);
      AccessTight(e.value, e.rest, d);
    }
  }

  lemma {:induction false} AccessTight(e: Expr, ts: seq<Token>, d: nat)
    requires Lexed(ts) && Written(ts) && Printable(e) && d + Nesting(e, 11) <= MaxDepth
    ensures Tight(PostfixLoop(e, ts, d), 11, d)
    decreases |ts|, 5
  {
    hide ParseTernary, Nesting;
    if At(ts, Dot) {
      var t := Skip(ts);
      if t[0].kind == Ident || t[0].kind == Keyword {
        NestingUnfolds(Member(e, t[0].text), 11);
        AccessTight(Member(e, t[0].text), SkipAny(t), d);
      }
    } else if At(ts, LBracket) {
      TernaryTight(Skip(ts), d);
      var i := ParseTernary(Skip(ts), d);
      if i.Got? && At(i.rest, RBracket) {
        NestingUnfolds(Index(e, i.value), 11);
        AccessTight(Index(e, i.value), Skip(i.rest), d);
      }
    }
  }

  lemma {:induction false} PrimaryTight(ts: seq<Token>, d: nat)
    requires Lexed(ts) && Written(ts)
    ensures Tight(ParsePrimary(ts, d), 12, d)
    decreases |ts|, 0, 1
  {
    hide ParsePrimary, Nesting, Written;
    var t := ts[0];
    PrimaryShape(ts, d);
    if LiteralAt(t) {
      LiteralTight(ts, d);
    } else if t.text == LParen || t.text == LBracket || t.text == LBrace {
      BracketTight(ts, d);
    } else if t.kind == Ident {
      NameTight(ts, d);
    }
  }

  lemma PrimaryShape(ts: seq<Token>, d: nat)
    requires Lexed(ts)
    ensures ParsePrimary(ts, d).Got? ==>
              LiteralAt(ts[0]) || ts[0].text == LParen || ts[0].text == LBracket || ts[0].text == LBrace || ts[0].kind == Ident
  {
    hide ParseTernary, ParseItems, ParseProps;
  }

  lemma LiteralTight(ts: seq<Token>, d: nat)
    requires Lexed(ts) && Written(ts) && LiteralAt(ts[0])
    ensures Tight(ParsePrimary(ts, d), 12, d)
  {
    hide ParseTernary, ParseItems, ParseProps, Nesting, Written;
    WrittenOn(ts);
    var r := ParsePrimary(ts, d);
    if r.Got? {
      NestingUnfolds(r.value, 12);
    }
  }

  lemma {:induction false} BracketTight(ts: seq<Token>, d: nat)
    requires Lexed(ts) && Written(ts) && !LiteralAt(ts[0])
    requires ts[0].text == LParen || ts[0].text == LBracket || ts[0].text == LBrace
    ensures Tight(ParsePrimary(ts, d), 12, d)
    decreases |ts|, 0, 0
  {
    hide ParsePrimary, ParseTernary, ParseItems, ParseProps, Nesting, Written, Fits, LiteralAt;
    PrimaryUnfolds(ts, d);
    WrittenOn(ts);
    var r := ParsePrimary(ts, d);
    if d + 1 <= MaxDepth && r.Got? {
      if ts[0].text == LParen {
        TernaryTight(Skip(ts), d + 1);
        var e := ParseTernary(Skip(ts), d + 1);
        if e.Got? {
          WrittenOn(e.rest);
        }
        NestingSteps(r.value);
      } else if ts[0].text == LBracket {
        ItemsTight(Skip(ts), RBracket, d + 1);
        NestingUnfolds(r.value, 12);
      } else {
        PropsTight(Skip(ts), d + 1);
        NestingUnfolds(r.value, 12);
      }
    }
  }

  lemma {:induction false} NameTight(ts: seq<Token>, d: nat)
    requires Lexed(ts) && Written(ts) && ts[0].kind == Ident
    ensures Tight(ParsePrimary(ts, d), 12, d)
    decreases |ts|, 0, 0
  {
    hide ParseTernary, ParseItems, ParseProps, Nesting, Written;
    var r := ParsePrimary(ts, d);
    WrittenOn(ts);
    if d + 1 <= MaxDepth && r.Got? {
      NestingUnfolds(r.value, 12);
      var after := SkipAny(ts);
      if At(after, LParen) {
        WrittenOn(after);
        ItemsTight(Skip(after), RParen, d + 1);
      }
    }
  }

  lemma {:induction false} ItemsTight(ts: seq<Token>, close: Text, d: nat)
    requires Lexed(ts) && Written(ts) && close != Nothing && d <= MaxDepth
    ensures var r := ParseItems(ts, close, d);
            r.Got? ==> PrintableAll(r.value) && d + NestingAll(r.value) <= MaxDepth && Written(r.rest)
    decreases |ts|, 6
  {
    hide MoreItems;
    if !At(ts, close) {
      MoreItemsTight(ts, close, d);
    }
  }

  lemma {:induction false} MoreItemsTight(ts: seq<Token>, close: Text, d: nat)
    requires Lexed(ts) && Written(ts) && close != Nothing
    ensures var r := MoreItems(ts, close, d);
            r.Got? ==> PrintableAll(r.value) && d + NestingAll(r.value) <= MaxDepth && Written(r.rest)
    decreases |ts|, 5
  {
    hide ParseTernary, MoreItems, Nesting, Printable;
    ItemsUnfold(ts, close, d);
    TernaryTight(ts, d);
    var e := ParseTernary(ts, d);
    if e.Got? {
      if At(e.rest, Comma) && !At(Skip(e.rest), close) {
        MoreItemsTight(Skip(e.rest), close, d);
        var more := MoreItems(Skip(e.rest), close, d);
        if more.Got? {
          assert ([e.value] + more.value)[1..] == more.value;
        }
      } else {
        assert [e.value][1..] == [];
      }
    }
  }

  lemma {:induction false} PropsTight(ts: seq<Token>, d: nat)
    requires Lexed(ts) && Written(ts) && d <= MaxDepth
    ensures var r := ParseProps(ts, d);
            r.Got? ==> PrintableProps(r.value) && d + NestingProps(r.value) <= MaxDepth && Written(r.rest)
    decreases |ts|, 6
  {
    hide MoreProps;
    if !At(ts, RBrace) {
      MorePropsTight(ts, d);
    }
  }

  lemma {:induction false} MorePropsTight(ts: seq<Token>, d: nat)
    requires Lexed(ts) && Written(ts)
    ensures var r := MoreProps(ts, d);
            r.Got? ==> PrintableProps(r.value) && d + NestingProps(r.value) <= MaxDepth && Written(r.rest)
    decreases |ts|, 5
  {
    hide ParseTernary, MoreProps, Nesting, Printable, ProtoKey;
    if MoreProps(ts, d).Got? {
      PropsShape(ts, d);
      PropsUnfold(ts, d);
      var value := Skip(SkipAny(ts));
      TernaryTight(value, d);
      var v := ParseTernary(value, d);
      if v.Got? {
        if At(v.rest, Comma) && !At(Skip(v.rest), RBrace) {
          MorePropsTight(Skip(v.rest), d);
          var more := MoreProps(Skip(v.rest), d);
          if more.Got? {
            assert ([Prop(ts[0].text, v.value)] + more.value)[1..] == more.value;
          }
        } else {
          assert [Prop(ts[0].text, v.value)][1..] == [];
        }
      }
    }
  }

  lemma PropsShape(ts: seq<Token>, d: nat)
    requires Lexed(ts) && MoreProps(ts, d).Got?
    ensures KeyKind(ts[0].kind) && !ProtoKey(ts[0].text) && At(SkipAny(ts), Colon)
  {
    hide ParseTernary, ProtoKey;
  }

  /** Printing what was parsed, and parsing that, gives the same tree: it nests no deeper than the source did. */
  lemma ReprintedParsesBack(ts: seq<Token>)
    requires Lexed(ts) && Written(ts) && ParseTernary(ts, 0).Got?
    ensures var e := ParseTernary(ts, 0).value;
            Lexed(Emit(e, 0, [EofToken])) && ParseTernary(Emit(e, 0, [EofToken]), 0) == Got(e, [EofToken])
  {
    hide ParseTernary, Emit, Nesting, Printable;
    TernaryTight(ts, 0);
    PrintedParsesBack(ParseTernary(ts, 0).value);
  }
}

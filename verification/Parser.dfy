/** The expression parser as the program runs it: a token list and a position that moves along it. */
module Parser {
  import opened Values
  import opened Ast
  import opened Pratt

  class ASTGen {
    const tokens: seq<Token>
    const one: F64
    var tokenPos: nat

    constructor (ts: seq<Token>, oneValue: F64)
      ensures tokens == ts && one == oneValue && tokenPos == 0
    {
      tokens, one, tokenPos := ts, oneValue, 0;
    }

    predicate Ready()
      reads this
    {
      tokenPos <= |tokens|
    }

    /** What came of parsing from the old position on, with the position where a tree ends. */
    ghost predicate Gives(r: Outcome, o: Outcome)
      reads this
    {
      r == o && (r.Tree? ==> tokenPos == r.pos && Ready())
    }

    predicate AtSign(c: char)
      reads this
    {
      Is(tokens, tokenPos, c)
    }

    method ParseExpression(rbp: nat) returns (r: Outcome)
      requires Ready()
      modifies this`tokenPos
      ensures Gives(r, ParseExpr(tokens, old(tokenPos), rbp, one))
      decreases |tokens| - tokenPos, 3
    {
      hide Prefix, Led;
      ghost var start := tokenPos;
      if tokenPos >= |tokens| {
        return Hollow;
      }
      var t := tokens[tokenPos];
      tokenPos := tokenPos + 1;
      var left := Nud(t);
      while true
        invariant left.Tree? ==> left.pos == tokenPos && start < tokenPos <= |tokens|
        invariant ParseExpr(tokens, start, rbp, one) == if left.Tree? then Infix(tokens, left.e, tokenPos, rbp, one)
            else left
        decreases left.Tree?, |tokens| - tokenPos
      {
        if !left.Tree? {
          return left;
        }
        var bp := Lbp(LookAhead(tokens, tokenPos));
        if bp <= rbp {
          break;
        }
        var op := tokens[tokenPos];
        tokenPos := tokenPos + 1;
        left := LedStep(op, left.e);
      }
      r := left;
    }

    method Nud(t: Token) returns (r: Outcome)
      requires Ready()
      modifies this`tokenPos
      ensures Gives(r, Prefix(tokens, t, old(tokenPos), one))
      decreases |tokens| - tokenPos, 4
    {
      hide ParseExpr;
      match t {
        case IntTok(v) => return Tree(IntLit(ToS32(v)), tokenPos);
        case FloatTok(f) => return Tree(FloatLit(f), tokenPos);
        case StringTok(s) => return Tree(StrLit(s), tokenPos);
        case NameTok(name) =>
          if LookAhead(tokens, tokenPos) == ColonColonTok || AtSign('(') {
            return Beyond;
          }
          return Tree(Constant(name), tokenPos);
        case VarTok(name) => return Tree(Var(name, Absent), tokenPos);
        case SpecialTok => return Beyond;
        case Sign(c) =>
          if c == '(' {
            r := ParseExpression(0);
            if r.Hollow? {
              return Error;
            } else if r.Tree? {
              if !AtSign(')') {
                return Error;
              }
              tokenPos := tokenPos + 1;
              return Tree(r.e, tokenPos);
            }
          } else if c == '-' {
            r := ParseExpression(UNARY_POWER);
            if r.Tree? {
              return Tree(FloatUnary(r.e), tokenPos);
            }
          } else if c == '!' || c == '~' {
            r := ParseExpression(UNARY_POWER);
            if r.Tree? {
              return Tree(IntUnary(if c == '!' then Not else Complement, r.e), tokenPos);
            }
          } else if c == '*' {
            return Beyond;
          } else {
            return Error;
          }
        case _ => return Error;
      }
    }

    method LedStep(t: Token, left: Expr) returns (r: Outcome)
      requires Ready()
      modifies this`tokenPos
      ensures Gives(r, Led(tokens, t, left, old(tokenPos), one))
      decreases |tokens| - tokenPos, 5
    {
      hide ParseExpr, ParseIndex, Combine;
      if t == Sign('[') {
        r := ParseAidx();
        if r.Hollow? {
          return Error;
        } else if r.Tree? {
          if !AtSign(']') || !left.Var? {
            return Error;
          }
          tokenPos := tokenPos + 1;
          return Tree(Var(left.name, Present(if left.sub.Present? then CommaCat(left.sub.e, r.e) else r.e)), tokenPos);
        }
      } else if t == Sign('?') {
        r := ParseExpression(0);
        if r.Hollow? {
          return Error;
        } else if r.Tree? {
          if !AtSign(':') {
            return Error;
          }
          tokenPos := tokenPos + 1;
          var mid := r.e;
          r := ParseExpression(Lbp(t) - 1);
          if r.Tree? {
            return Tree(Conditional(left, mid, r.e), tokenPos);
          }
        }
      } else if t == Sign('=') || t.AssignTok? {
        r := ParseExpression(Lbp(t) - 1);
        r := MakeAssign(t, left, r);
      } else if t == PlusPlusTok || t == MinusMinusTok {
        if !left.Var? {
          return Error;
        }
        var step := FloatAssign(if t == PlusPlusTok then Add else Sub);
        return Tree(AssignOp(left.name, left.sub, step, FloatLit(one)), tokenPos);
      } else if t == Sign('.') || t == ArrowTok {
        return Beyond;
      } else {
        r := ParseExpression(Lbp(t));
        if r.Hollow? {
          return if Combine(t, left, left).Some? then Hollow else Error;
        } else if r.Tree? {
          var e := Combine(t, left, r.e);
          return if e.Some? then Tree(e.value, tokenPos) else Error;
        }
      }
    }

    method ParseAidx() returns (r: Outcome)
      requires Ready()
      modifies this`tokenPos
      ensures Gives(r, ParseIndex(tokens, old(tokenPos), one))
      decreases |tokens| - tokenPos, 4
    {
      hide ParseExpr;
      ghost var start := tokenPos;
      r := ParseExpression(0);
      while r.Tree? && AtSign(',')
        invariant r.Tree? ==> r.pos == tokenPos && start < tokenPos <= |tokens|
        invariant ParseIndex(tokens, start, one) == if r.Tree? then MoreIndex(tokens, r.e, tokenPos, one) else r
        decreases r.Tree?, |tokens| - tokenPos
      {
        var head := r.e;
        tokenPos := tokenPos + 1;
        r := ParseExpression(0);
        if r.Tree? {
          r := Tree(CommaCat(head, r.e), r.pos);
        }
      }
    }
  }
}

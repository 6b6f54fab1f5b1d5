/** Which operators bind tighter, said of the parser without the levels it is built from. */
module ExpressionPrecedence {
  import opened Identifiers
  import opened Expression
  import opened ExpressionGrammar
  import opened ExpressionPrinter

  /** The binary operators, loosest first; operators of one set bind alike. */
  const PRECEDENCE: seq<set<Operator>> :=
    [{Or}, {And}, {Equal, NotEqual}, {Less, LessEqual, Greater, GreaterEqual}, {Plus, Minus},
     {Times, Divide, Modulo}]

  const UNARY_OPERATORS: set<Operator> := {Not, Plus, Minus}

  lemma LevelIsPrecedence(op: Operator, i: nat)
    requires i < |PRECEDENCE|
    ensures op in PRECEDENCE[i] <==> BinaryLevel(op) == i
  {
  }

  /** A literal, a reference, a phrase in parentheses, or one of these under unary operators. */
  ghost predicate IsOperand(tokens: seq<Token>, tree: Tree, room: nat) {
    EndToken !in tokens && Derives(UNARY_LEVEL, tokens, tree, room)
  }

  /** Literals and references are operands, and so is any phrase in parentheses. */
  lemma PrimariesAreOperands(number: real, boolean: bool, id: Uuid, room: nat, inner: seq<Token>, tree: Tree)
    ensures IsOperand([NumberToken(number)], Number(number), room)
    ensures IsOperand([BooleanToken(boolean)], Boolean(boolean), room)
    ensures IsOperand([ReferenceToken(id)], Reference(id), room)
    ensures EndToken !in inner && Derives(0, inner, tree, room) ==>
              IsOperand([LeftParenthesis] + inner + [RightParenthesis], tree, room + 1)
  {
    if Derives(0, inner, tree, room) {
      DerivesParenthesised(inner, tree, room + 1);
    }
  }

  /** A unary operator before an operand binds tighter than any binary one. */
  lemma UnaryIsOperand(op: Operator, tokens: seq<Token>, tree: Tree, room: nat)
    requires op in UNARY_OPERATORS && IsOperand(tokens, tree, room)
    ensures IsOperand([OperatorToken(op)] + tokens, Unary(op, tree), room + 1)
  {
    DerivesUnary(op, tokens, tree, room + 1);
  }

  /** Two operands with an operator between them. */
  lemma Combine(i: nat, p: Operator, before: seq<Token>, left: Tree, after: seq<Token>, right: Tree, room: nat)
    requires i < |PRECEDENCE| && p in PRECEDENCE[i]
    requires Derives(i, before, left, room) && Derives(i + 1, after, right, room)
    ensures Derives(i, before + [OperatorToken(p)] + after, Binary(p, left, right), room)
  {
    LevelIsPrecedence(p, i);
    DerivesBinary(i, p, before, left, after, right, room);
  }

  /** What the tree of two operators is: the one at or after the other in the order of
      precedence, or else the later one, is the outer one. */
  function Grouped(x: Tree, p: Operator, y: Tree, q: Operator, z: Tree, leftFirst: bool): Tree {
    if leftFirst then Binary(q, Binary(p, x, y), z) else Binary(p, x, Binary(q, y, z))
  }

  lemma GroupedDerives(a: seq<Token>, x: Tree, p: Operator, i: nat, b: seq<Token>, y: Tree, q: Operator, j: nat,
                       c: seq<Token>, z: Tree, room: nat)
    requires i < |PRECEDENCE| && p in PRECEDENCE[i] && j < |PRECEDENCE| && q in PRECEDENCE[j]
    requires IsOperand(a, x, room) && IsOperand(b, y, room) && IsOperand(c, z, room)
    ensures Derives(0, a + [OperatorToken(p)] + b + [OperatorToken(q)] + c, Grouped(x, p, y, q, z, i >= j), room)
  {
    if i >= j {
      Loosen(i, UNARY_LEVEL, a, x, room);
      Loosen(i + 1, UNARY_LEVEL, b, y, room);
      Loosen(j + 1, UNARY_LEVEL, c, z, room);
      LeftGrouped(a, x, p, i, b, y, q, j, c, z, room);
    } else {
      Loosen(i, UNARY_LEVEL, a, x, room);
      Loosen(j, UNARY_LEVEL, b, y, room);
      Loosen(j + 1, UNARY_LEVEL, c, z, room);
      RightGrouped(a, x, p, i, b, y, q, j, c, z, room);
    }
  }

  lemma LeftGrouped(a: seq<Token>, x: Tree, p: Operator, i: nat, b: seq<Token>, y: Tree, q: Operator, j: nat,
                    c: seq<Token>, z: Tree, room: nat)
    requires j <= i < |PRECEDENCE| && p in PRECEDENCE[i] && q in PRECEDENCE[j]
    requires Derives(i, a, x, room) && Derives(i + 1, b, y, room) && Derives(j + 1, c, z, room)
    ensures Derives(0, a + [OperatorToken(p)] + b + [OperatorToken(q)] + c, Binary(q, Binary(p, x, y), z), room)
  {
    var before := a + [OperatorToken(p)] + b;
    Combine(i, p, a, x, b, y, room);
    Loosen(j, i, before, Binary(p, x, y), room);
    Combine(j, q, before, Binary(p, x, y), c, z, room);
    Loosen(0, j, before + [OperatorToken(q)] + c, Binary(q, Binary(p, x, y), z), room);
  }

  lemma RightGrouped(a: seq<Token>, x: Tree, p: Operator, i: nat, b: seq<Token>, y: Tree, q: Operator, j: nat,
                     c: seq<Token>, z: Tree, room: nat)
    requires i < j < |PRECEDENCE| && p in PRECEDENCE[i] && q in PRECEDENCE[j]
    requires Derives(i, a, x, room) && Derives(j, b, y, room) && Derives(j + 1, c, z, room)
    ensures Derives(0, a + [OperatorToken(p)] + b + [OperatorToken(q)] + c, Binary(p, x, Binary(q, y, z)), room)
  {
    var after := b + [OperatorToken(q)] + c;
    Combine(j, q, b, y, c, z, room);
    Loosen(i + 1, j, after, Binary(q, y, z), room);
    Combine(i, p, a, x, after, Binary(q, y, z), room);
    Loosen(0, i, a + [OperatorToken(p)] + after, Binary(p, x, Binary(q, y, z)), room);
    Associated(a + [OperatorToken(p)], b + [OperatorToken(q)], c);
    Associated(a + [OperatorToken(p)], b, [OperatorToken(q)]);
  }

  /** A derivable phrase within the limits is parsed to its tree. */
  lemma PhraseIsParsed(limits: Limits, s: seq<Token>, tree: Tree)
    requires EndToken !in s && Derives(0, s, tree, limits.depth)
    requires |AddReferences([], References(tree))| <= limits.dependencies
    ensures Terminated(s + [EndToken]) && ParsesTo(limits, s + [EndToken], tree)
  {
    assert (s + [EndToken])[..|s|] == s;
    assert forall i :: 0 <= i < |s| ==> s[i] in s;
    ParserMeetsGrammar(limits, s + [EndToken], tree);
  }

  lemma GroupedReferences(x: Tree, p: Operator, y: Tree, q: Operator, z: Tree, leftFirst: bool)
    ensures References(Grouped(x, p, y, q, z, leftFirst)) == References(x) + References(y) + References(z)
  {
    if leftFirst {
      BinaryReferences(q, Binary(p, x, y), z);
      BinaryReferences(p, x, y);
    } else {
      BinaryReferences(p, x, Binary(q, y, z));
      BinaryReferences(q, y, z);
      Associated(References(x), References(y), References(z));
    }
  }

  lemma BinaryReferences(op: Operator, left: Tree, right: Tree)
    ensures References(Binary(op, left, right)) == References(left) + References(right)
  {
  }

  lemma Associated<T>(a: seq<T>, b: seq<T>, c: seq<T>)
    ensures a + (b + c) == a + b + c
  {
  }

  lemma NoEndAmong(a: seq<Token>, p: Operator, b: seq<Token>, q: Operator, c: seq<Token>)
    requires EndToken !in a && EndToken !in b && EndToken !in c
    ensures EndToken !in a + [OperatorToken(p)] + b + [OperatorToken(q)] + c
  {
  }

  /** For any operands, `a p b q c` is parsed as `(a p b) q c` when p stands at or after q in
      the order of precedence, and as `a p (b q c)` when it stands before. */
  lemma TwoOperators(limits: Limits, a: seq<Token>, x: Tree, p: Operator, i: nat, b: seq<Token>, y: Tree,
                     q: Operator, j: nat, c: seq<Token>, z: Tree)
    requires i < |PRECEDENCE| && p in PRECEDENCE[i] && j < |PRECEDENCE| && q in PRECEDENCE[j]
    requires IsOperand(a, x, limits.depth) && IsOperand(b, y, limits.depth) && IsOperand(c, z, limits.depth)
    requires |AddReferences([], References(x) + References(y) + References(z))| <= limits.dependencies
    ensures var tokens := a + [OperatorToken(p)] + b + [OperatorToken(q)] + c + [EndToken];
            && Terminated(tokens)
            && ParsesTo(limits, tokens,
                        if i >= j then Binary(q, Binary(p, x, y), z) else Binary(p, x, Binary(q, y, z)))
  {
    GroupedDerives(a, x, p, i, b, y, q, j, c, z, limits.depth);
    GroupedReferences(x, p, y, q, z, i >= j);
    NoEndAmong(a, p, b, q, c);
    PhraseIsParsed(limits, a + [OperatorToken(p)] + b + [OperatorToken(q)] + c, Grouped(x, p, y, q, z, i >= j));
  }

  /** A phrase never begins with an operator that is not unary. */
  lemma {:induction false} FirstIsNotBinary(level: nat, tokens: seq<Token>, tree: Tree, room: nat)
    requires level <= PRIMARY_LEVEL && Derives(level, tokens, tree, room)
    ensures |tokens| > 0 && (tokens[0].OperatorToken? ==> tokens[0].op in UNARY_OPERATORS)
    decreases |tokens|, PRIMARY_LEVEL - level
  {
    if level <= UNARY_LEVEL && Derives(level + 1, tokens, tree, room) {
      FirstIsNotBinary(level + 1, tokens, tree, room);
    } else if level < UNARY_LEVEL {
      var n := OperatorWithin(tokens, level, tree, room);
      FirstIsNotBinary(level, tokens[..n], tree.left, room);
    }
  }

  /** So an expression that does is rejected. */
  lemma BinaryFirstIsRejected(limits: Limits, tokens: seq<Token>)
    requires Terminated(tokens) && tokens[0].OperatorToken? && tokens[0].op !in UNARY_OPERATORS
    ensures ParseTokens(limits, tokens).Rejected?
  {
    if ParseTokens(limits, tokens).Expression? {
      AcceptedExpression(limits, tokens);
      FirstIsNotBinary(0, tokens[..|tokens| - 1], ParseTokens(limits, tokens).root, limits.depth);
    }
  }
}

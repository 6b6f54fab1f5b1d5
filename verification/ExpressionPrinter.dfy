/** Writing a tree with no more parentheses than the grammar needs, and reading it back. */
module ExpressionPrinter {
  import opened Ordering
  import opened Expression
  import opened ExpressionGrammar

  /** Operators stand where the parser can put them. */
  ghost predicate Buildable(tree: Tree) {
    match tree
    case Unary(op, operand) => IsUnary(op) && Buildable(operand)
    case Binary(op, left, right) => op != Not && Buildable(left) && Buildable(right)
    case _ => true
  }

  /** The level of the outermost operator of a tree. */
  function LevelOf(tree: Tree): nat
    requires Buildable(tree)
  {
    match tree
    case Unary(_, _) => UNARY_LEVEL
    case Binary(op, _, _) => BinaryLevel(op)
    case _ => PRIMARY_LEVEL
  }

  /** The tokens of a tree where a phrase of the given level is wanted. */
  ghost function Print(level: nat, tree: Tree): seq<Token>
    requires Buildable(tree) && level <= PRIMARY_LEVEL
    decreases tree, if LevelOf(tree) < level then 1 else 0
  {
    if LevelOf(tree) < level then
      [LeftParenthesis] + Print(0, tree) + [RightParenthesis]
    else
      match tree
      case Number(n) => [NumberToken(n)]
      case Boolean(b) => [BooleanToken(b)]
      case Reference(id) => [ReferenceToken(id)]
      case Unary(op, operand) => [OperatorToken(op)] + Print(UNARY_LEVEL, operand)
      case Binary(op, left, right) =>
        Print(BinaryLevel(op), left) + [OperatorToken(op)] + Print(BinaryLevel(op) + 1, right)
  }

  /** The nesting that the printed tokens need. */
  ghost function Nesting(level: nat, tree: Tree): nat
    requires Buildable(tree) && level <= PRIMARY_LEVEL
    decreases tree, if LevelOf(tree) < level then 1 else 0
  {
    if LevelOf(tree) < level then 1 + Nesting(0, tree)
    else
      match tree
      case Unary(_, operand) => 1 + Nesting(UNARY_LEVEL, operand)
      case Binary(op, left, right) => Max(Nesting(BinaryLevel(op), left), Nesting(BinaryLevel(op) + 1, right))
      case _ => 0
  }

  /** A phrase of a tight level is a phrase of every looser level. */
  lemma {:induction false} Loosen(level: nat, tight: nat, tokens: seq<Token>, tree: Tree, room: nat)
    requires level <= tight <= PRIMARY_LEVEL && Derives(tight, tokens, tree, room)
    ensures Derives(level, tokens, tree, room)
    decreases tight - level
  {
    if level < tight {
      Loosen(level + 1, tight, tokens, tree, room);
    }
  }

  lemma DerivesParenthesised(inner: seq<Token>, tree: Tree, room: nat)
    requires room > 0 && Derives(0, inner, tree, room - 1)
    ensures Derives(PRIMARY_LEVEL, [LeftParenthesis] + inner + [RightParenthesis], tree, room)
  {
    var s := [LeftParenthesis] + inner + [RightParenthesis];
    assert s[1..|s| - 1] == inner;
  }

  lemma DerivesUnary(op: Operator, after: seq<Token>, operand: Tree, room: nat)
    requires IsUnary(op) && room > 0 && Derives(UNARY_LEVEL, after, operand, room - 1)
    ensures Derives(UNARY_LEVEL, [OperatorToken(op)] + after, Unary(op, operand), room)
  {
    assert ([OperatorToken(op)] + after)[1..] == after;
  }

  lemma DerivesBinary(level: nat, op: Operator, before: seq<Token>, left: Tree, after: seq<Token>, right: Tree,
                      room: nat)
    requires level == BinaryLevel(op) && level < UNARY_LEVEL
    requires Derives(level, before, left, room) && Derives(level + 1, after, right, room)
    ensures Derives(level, before + [OperatorToken(op)] + after, Binary(op, left, right), room)
  {
    var s, k := before + [OperatorToken(op)] + after, |before|;
    assert s[k] == OperatorToken(op) && s[..k] == before && s[k + 1..] == after;
  }

  lemma {:induction false} PrintDerives(level: nat, tree: Tree, room: nat)
    requires Buildable(tree) && level <= PRIMARY_LEVEL && Nesting(level, tree) <= room
    ensures Derives(level, Print(level, tree), tree, room)
    decreases tree, if LevelOf(tree) < level then 1 else 0
  {
    var s := Print(level, tree);
    if LevelOf(tree) < level {
      PrintDerives(0, tree, room - 1);
      DerivesParenthesised(Print(0, tree), tree, room);
      Loosen(level, PRIMARY_LEVEL, s, tree, room);
    } else {
      match tree
      case Unary(op, operand) =>
        PrintDerives(UNARY_LEVEL, operand, room - 1);
        DerivesUnary(op, Print(UNARY_LEVEL, operand), operand, room);
        Loosen(level, UNARY_LEVEL, s, tree, room);
      case Binary(op, left, right) =>
        var at := BinaryLevel(op);
        PrintDerives(at, left, room);
        PrintDerives(at + 1, right, room);
        DerivesBinary(at, op, Print(at, left), left, Print(at + 1, right), right, room);
        Loosen(level, at, s, tree, room);
      case _ =>
        Loosen(level, PRIMARY_LEVEL, s, tree, room);
    }
  }

  lemma {:induction false} NestingByLevel(level: nat, tight: nat, tree: Tree)
    requires Buildable(tree) && level <= tight <= PRIMARY_LEVEL
    ensures Nesting(level, tree) <= Nesting(tight, tree) <= 1 + Nesting(0, tree)
  {
    assert LevelOf(tree) >= level ==> Nesting(level, tree) == Nesting(0, tree);
    assert LevelOf(tree) >= tight ==> Nesting(tight, tree) == Nesting(0, tree);
  }

  /** Every token sequence for a tree nests at least as deeply as the printed one. */
  lemma {:induction false} PrintingNestsLeast(level: nat, tokens: seq<Token>, tree: Tree, room: nat)
    requires level <= PRIMARY_LEVEL && Derives(level, tokens, tree, room)
    ensures Buildable(tree) && Nesting(level, tree) <= room
    decreases |tokens|, PRIMARY_LEVEL - level
  {
    if level <= UNARY_LEVEL && Derives(level + 1, tokens, tree, room) {
      PrintingNestsLeast(level + 1, tokens, tree, room);
      NestingByLevel(level, level + 1, tree);
    } else if level < UNARY_LEVEL {
      var k :| 0 <= k < |tokens| && tokens[k] == OperatorToken(tree.op)
               && Derives(level, tokens[..k], tree.left, room)
               && Derives(level + 1, tokens[k + 1..], tree.right, room);
      PrintingNestsLeast(level, tokens[..k], tree.left, room);
      PrintingNestsLeast(level + 1, tokens[k + 1..], tree.right, room);
    } else if level == UNARY_LEVEL {
      PrintingNestsLeast(UNARY_LEVEL, tokens[1..], tree.operand, room - 1);
    } else if |tokens| >= 2 {
      PrintingNestsLeast(0, tokens[1..|tokens| - 1], tree, room - 1);
      NestingByLevel(PRIMARY_LEVEL, PRIMARY_LEVEL, tree);
    }
  }

  /** The trees that fit the limits of the language. */
  ghost predicate Representable(limits: Limits, tree: Tree) {
    && Buildable(tree) && Nesting(0, tree) <= limits.depth
    && |AddReferences([], References(tree))| <= limits.dependencies
  }

  lemma {:induction false} PrintHasNoEnd(level: nat, tree: Tree)
    requires Buildable(tree) && level <= PRIMARY_LEVEL
    ensures EndToken !in Print(level, tree)
    decreases tree, if LevelOf(tree) < level then 1 else 0
  {
    if LevelOf(tree) < level {
      PrintHasNoEnd(0, tree);
    } else {
      match tree
      case Unary(_, operand) => PrintHasNoEnd(UNARY_LEVEL, operand);
      case Binary(op, left, right) =>
        PrintHasNoEnd(BinaryLevel(op), left);
        PrintHasNoEnd(BinaryLevel(op) + 1, right);
      case _ =>
    }
  }

  /** Printing and parsing again gives the tree back, for every tree within the limits. */
  lemma PrintThenParse(limits: Limits, tree: Tree)
    requires Representable(limits, tree)
    ensures Terminated(Print(0, tree) + [EndToken])
    ensures ParseTokens(limits, Print(0, tree) + [EndToken])
         == Expression(tree, AddReferences([], References(tree)))
  {
    var tokens := Print(0, tree) + [EndToken];
    PrintHasNoEnd(0, tree);
    PrintDerives(0, tree, limits.depth);
    assert tokens[..|tokens| - 1] == Print(0, tree);
    ParserMeetsGrammar(limits, tokens, tree);
  }

  /** The parser returns a tree for some token sequence exactly when it is representable. */
  lemma ParseableIsRepresentable(limits: Limits, tree: Tree)
    ensures Representable(limits, tree) <==>
            exists tokens :: Terminated(tokens) && ParsesTo(limits, tokens, tree)
  {
    if Representable(limits, tree) {
      PrintThenParse(limits, tree);
      assert ParsesTo(limits, Print(0, tree) + [EndToken], tree);
    }
    if tokens :| Terminated(tokens) && ParsesTo(limits, tokens, tree) {
      AcceptedExpression(limits, tokens);
      PrintingNestsLeast(0, tokens[..|tokens| - 1], tree, limits.depth);
    }
  }

  ghost predicate ParsesTo(limits: Limits, tokens: seq<Token>, tree: Tree)
    requires Terminated(tokens)
  {
    ParseTokens(limits, tokens).Expression? && ParseTokens(limits, tokens).root == tree
  }
}

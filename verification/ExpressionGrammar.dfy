/** The expression grammar as a derivation relation, the recursive descent as a function,
    and the proof that they agree for every token sequence and every pair of limits. */
module ExpressionGrammar {
  import opened Identifiers
  import opened Expression

  // ---------------------------------------------------------------- the grammar

  /** The tokens derive the tree at a level, nesting at most `room` unary operators and
      parentheses. Levels 0 to 5 are the left-associative binary levels, loosest first. */
  ghost predicate Derives(level: nat, tokens: seq<Token>, tree: Tree, room: nat)
    requires level <= PRIMARY_LEVEL
    decreases |tokens|, PRIMARY_LEVEL - level
  {
    if level < UNARY_LEVEL then
      || Derives(level + 1, tokens, tree, room)
      || (tree.Binary? && BinaryLevel(tree.op) == level
          && exists k :: 0 <= k < |tokens| && tokens[k] == OperatorToken(tree.op)
               && Derives(level, tokens[..k], tree.left, room)
               && Derives(level + 1, tokens[k + 1..], tree.right, room))
    else if level == UNARY_LEVEL then
      || Derives(PRIMARY_LEVEL, tokens, tree, room)
      || (tree.Unary? && IsUnary(tree.op) && room > 0
          && |tokens| > 0 && tokens[0] == OperatorToken(tree.op)
          && Derives(UNARY_LEVEL, tokens[1..], tree.operand, room - 1))
    else
      || (tree.Number? && tokens == [NumberToken(tree.number)])
      || (tree.Boolean? && tokens == [BooleanToken(tree.boolean)])
      || (tree.Reference? && tokens == [ReferenceToken(tree.id)])
      || (|tokens| >= 2 && room > 0
          && tokens[0] == LeftParenthesis && tokens[|tokens| - 1] == RightParenthesis
          && Derives(0, tokens[1..|tokens| - 1], tree, room - 1))
  }

  lemma {:induction false} DerivesSome(level: nat, tokens: seq<Token>, tree: Tree, room: nat)
    requires level <= PRIMARY_LEVEL && Derives(level, tokens, tree, room)
    ensures |tokens| > 0
    decreases |tokens|, PRIMARY_LEVEL - level
  {
    if level <= UNARY_LEVEL && Derives(level + 1, tokens, tree, room) {
      DerivesSome(level + 1, tokens, tree, room);
    }
  }

  lemma {:induction false} MoreRoom(level: nat, tokens: seq<Token>, tree: Tree, room: nat, more: nat)
    requires level <= PRIMARY_LEVEL && Derives(level, tokens, tree, room) && room <= more
    ensures Derives(level, tokens, tree, more)
    decreases |tokens|, PRIMARY_LEVEL - level
  {
    if level <= UNARY_LEVEL && Derives(level + 1, tokens, tree, room) {
      MoreRoom(level + 1, tokens, tree, room, more);
    } else if level < UNARY_LEVEL {
      var k :| 0 <= k < |tokens| && tokens[k] == OperatorToken(tree.op)
               && Derives(level, tokens[..k], tree.left, room)
               && Derives(level + 1, tokens[k + 1..], tree.right, room);
      MoreRoom(level, tokens[..k], tree.left, room, more);
      MoreRoom(level + 1, tokens[k + 1..], tree.right, room, more);
    } else if level == UNARY_LEVEL {
      MoreRoom(UNARY_LEVEL, tokens[1..], tree.operand, room - 1, more - 1);
    } else if |tokens| >= 2 {
      MoreRoom(0, tokens[1..|tokens| - 1], tree, room - 1, more - 1);
    }
  }

  /** A derivation keeps the references, in order. */
  lemma {:induction false} DerivesReferences(level: nat, tokens: seq<Token>, tree: Tree, room: nat)
    requires level <= PRIMARY_LEVEL && Derives(level, tokens, tree, room)
    ensures TokenReferences(tokens) == References(tree)
    decreases |tokens|, PRIMARY_LEVEL - level
  {
    if level <= UNARY_LEVEL && Derives(level + 1, tokens, tree, room) {
      DerivesReferences(level + 1, tokens, tree, room);
    } else if level < UNARY_LEVEL {
      var k :| 0 <= k < |tokens| && tokens[k] == OperatorToken(tree.op)
               && Derives(level, tokens[..k], tree.left, room)
               && Derives(level + 1, tokens[k + 1..], tree.right, room);
      DerivesReferences(level, tokens[..k], tree.left, room);
      DerivesReferences(level + 1, tokens[k + 1..], tree.right, room);
      SplitReferences(tokens, k);
    } else if level == UNARY_LEVEL {
      DerivesReferences(UNARY_LEVEL, tokens[1..], tree.operand, room - 1);
      SplitReferences(tokens, 0);
      NoReferences(tokens[..0]);
    } else if |tokens| >= 2 {
      var inner := tokens[1..|tokens| - 1];
      DerivesReferences(0, inner, tree, room - 1);
      ParenthesesReferences(tokens);
    }
  }

  lemma NoReferences(tokens: seq<Token>)
    requires tokens == []
    ensures TokenReferences(tokens) == [] && forall rest: seq<Uuid> :: TokenReferences(tokens) + rest == rest
  {
  }

  lemma ParenthesesReferences(tokens: seq<Token>)
    requires |tokens| >= 2 && tokens[0] == LeftParenthesis && tokens[|tokens| - 1] == RightParenthesis
    ensures TokenReferences(tokens) == TokenReferences(tokens[1..|tokens| - 1])
  {
    var inner := tokens[1..|tokens| - 1];
    assert tokens[..|tokens| - 1] == [LeftParenthesis] + inner;
    TokenReferencesConcat([LeftParenthesis], inner);
    OneTokenReferences(LeftParenthesis);
    assert TokenReferences([LeftParenthesis]) + TokenReferences(inner) == TokenReferences(inner);
    assert TokenReferences(inner) + [] == TokenReferences(inner);
  }

  lemma OneTokenReferences(token: Token)
    ensures TokenReferences([token]) == if token.ReferenceToken? then [token.id] else []
  {
    assert [token][..0] == [];
    assert TokenReferences([]) == [];
  }

  lemma SplitReferences(tokens: seq<Token>, k: nat)
    requires k < |tokens| && !tokens[k].ReferenceToken?
    ensures TokenReferences(tokens) == TokenReferences(tokens[..k]) + TokenReferences(tokens[k + 1..])
  {
    var before, at, after := tokens[..k], [tokens[k]], tokens[k + 1..];
    assert tokens == before + (at + after);
    TokenReferencesConcat(before, at + after);
    TokenReferencesConcat(at, after);
    OneTokenReferences(tokens[k]);
    assert [] + TokenReferences(after) == TokenReferences(after);
  }

  lemma SliceOfSlice(tokens: seq<Token>, i: nat, j: nat, a: nat, b: nat)
    requires i <= j <= |tokens| && a <= b <= j - i
    ensures tokens[i..j][a..b] == tokens[i + a..i + b]
  {
    var s := tokens[i..j];
    assert |s[a..b]| == |tokens[i + a..i + b]|;
    forall x | 0 <= x < b - a ensures s[a..b][x] == tokens[i + a..i + b][x] {
      assert s[a + x] == tokens[i + a + x];
    }
  }

  // ---------------------------------------------------------------- recursive descent

  datatype ParseError = InvalidExpression | ExpressionTooComplex

  datatype Parse =
    | Parsed(tree: Tree, index: nat, dependencies: seq<Uuid>)
    | Failed(error: ParseError)

  /** parseOr to parsePrimary, one level each, started at an index with the given nesting
      depth and the dependencies collected so far. */
  function ParseLevel(limits: Limits, tokens: seq<Token>, level: nat, index: nat, depth: nat,
                      dependencies: seq<Uuid>): (r: Parse)
    requires Terminated(tokens) && index < |tokens| && level <= PRIMARY_LEVEL && depth <= limits.depth
    ensures r.Parsed? ==> index < r.index < |tokens|
    decreases |tokens| - index, PRIMARY_LEVEL - level
  {
    if level < UNARY_LEVEL then
      var first := ParseLevel(limits, tokens, level + 1, index, depth, dependencies);
      if first.Failed? then first
      else ParseRest(limits, tokens, level, first.tree, first.index, depth, first.dependencies)
    else if level == UNARY_LEVEL && tokens[index].OperatorToken? && IsUnary(tokens[index].op) then
      if depth + 1 > limits.depth then Failed(ExpressionTooComplex)
      else
        var operand := ParseLevel(limits, tokens, UNARY_LEVEL, index + 1, depth + 1, dependencies);
        if operand.Failed? then operand
        else operand.(tree := Unary(tokens[index].op, operand.tree))
    else if level == UNARY_LEVEL then
      ParseLevel(limits, tokens, PRIMARY_LEVEL, index, depth, dependencies)
    else
      match tokens[index]
      case NumberToken(n) => Parsed(Number(n), index + 1, dependencies)
      case BooleanToken(b) => Parsed(Boolean(b), index + 1, dependencies)
      case ReferenceToken(id) =>
        if id in dependencies then Parsed(Reference(id), index + 1, dependencies)
        else if |dependencies| >= limits.dependencies then Failed(ExpressionTooComplex)
        else Parsed(Reference(id), index + 1, dependencies + [id])
      case LeftParenthesis =>
        if depth + 1 > limits.depth then Failed(ExpressionTooComplex)
        else
          var inner := ParseLevel(limits, tokens, 0, index + 1, depth + 1, dependencies);
          if inner.Failed? then inner
          else if tokens[inner.index] != RightParenthesis then Failed(InvalidExpression)
          else inner.(index := inner.index + 1)
      case _ => Failed(InvalidExpression)
  }

  /** The loop of parseBinary, with the left operand parsed so far. */
  function ParseRest(limits: Limits, tokens: seq<Token>, level: nat, left: Tree, index: nat, depth: nat,
                     dependencies: seq<Uuid>): (r: Parse)
    requires Terminated(tokens) && index < |tokens| && level < UNARY_LEVEL && depth <= limits.depth
    ensures r.Parsed? ==> index <= r.index < |tokens|
    decreases |tokens| - index, PRIMARY_LEVEL - level
  {
    if tokens[index].OperatorToken? && BinaryLevel(tokens[index].op) == level then
      var right := ParseLevel(limits, tokens, level + 1, index + 1, depth, dependencies);
      if right.Failed? then right
      else
        var tree := Binary(tokens[index].op, left, right.tree);
        ParseRest(limits, tokens, level, tree, right.index, depth, right.dependencies)
    else Parsed(left, index, dependencies)
  }

  /** The token carries on a phrase of the level: a binary operator at least as tight. */
  predicate Continues(level: nat, token: Token) {
    token.OperatorToken? && BinaryLevel(token.op) >= level
  }

  // ---------------------------------------------------------------- soundness

  ghost function Collected(dependencies: seq<Uuid>, tokens: seq<Token>): seq<Uuid> {
    AddReferences(dependencies, TokenReferences(tokens))
  }

  lemma CollectedSplit(dependencies: seq<Uuid>, tokens: seq<Token>, i: nat, k: nat, j: nat)
    requires i <= k < j <= |tokens| && !tokens[k].ReferenceToken?
    ensures Collected(dependencies, tokens[i..j])
         == Collected(Collected(dependencies, tokens[i..k]), tokens[k + 1..j])
  {
    var s := tokens[i..j];
    SplitReferences(s, k - i);
    SliceOfSlice(tokens, i, j, 0, k - i);
    SliceOfSlice(tokens, i, j, k - i + 1, j - i);
    assert s[..k - i] == tokens[i..k] && s[k - i + 1..] == tokens[k + 1..j];
    AddReferencesConcat(dependencies, TokenReferences(tokens[i..k]), TokenReferences(tokens[k + 1..j]));
  }

  lemma CollectedOne(dependencies: seq<Uuid>, token: Token)
    ensures Collected(dependencies, [token])
         == if token.ReferenceToken? && token.id !in dependencies then dependencies + [token.id] else dependencies
  {
    OneTokenReferences(token);
    assert AddReferences(dependencies, []) == dependencies;
    if token.ReferenceToken? {
      assert [token.id][..0] == [];
    }
  }

  /** A phrase between parentheses collects what its inside collects. */
  lemma CollectedInside(dependencies: seq<Uuid>, tokens: seq<Token>, i: nat, j: nat)
    requires i + 1 < j <= |tokens| && tokens[i] == LeftParenthesis && tokens[j - 1] == RightParenthesis
    ensures Collected(dependencies, tokens[i..j]) == Collected(dependencies, tokens[i + 1..j - 1])
    ensures tokens[i..j][1..|tokens[i..j]| - 1] == tokens[i + 1..j - 1]
  {
    SliceOfSlice(tokens, i, j, 1, j - i - 1);
    CollectedSplit(dependencies, tokens, i, i, j);
    CollectedSplit(dependencies, tokens, i + 1, j - 1, j);
    assert tokens[i..i] == [] && tokens[j..j] == [];
  }

  /** What a successful parse from i to j promises. */
  ghost predicate Sound(limits: Limits, tokens: seq<Token>, level: nat, i: nat, depth: nat,
                        dependencies: seq<Uuid>, r: Parse)
    requires r.Parsed? && i < r.index <= |tokens| && level <= PRIMARY_LEVEL && depth <= limits.depth
  {
    && Derives(level, tokens[i..r.index], r.tree, limits.depth - depth)
    && r.dependencies == Collected(dependencies, tokens[i..r.index])
    && |r.dependencies| <= limits.dependencies
  }

  lemma {:induction false} ParseIsSound(limits: Limits, tokens: seq<Token>, level: nat, i: nat, depth: nat,
                                        dependencies: seq<Uuid>)
    requires Terminated(tokens) && i < |tokens| && level <= PRIMARY_LEVEL && depth <= limits.depth
    requires |dependencies| <= limits.dependencies
    requires ParseLevel(limits, tokens, level, i, depth, dependencies).Parsed?
    ensures Sound(limits, tokens, level, i, depth, dependencies,
                  ParseLevel(limits, tokens, level, i, depth, dependencies))
    decreases |tokens| - i, PRIMARY_LEVEL - level, 1
  {
    var r := ParseLevel(limits, tokens, level, i, depth, dependencies);
    if level < UNARY_LEVEL {
      ParseIsSound(limits, tokens, level + 1, i, depth, dependencies);
      var first := ParseLevel(limits, tokens, level + 1, i, depth, dependencies);
      RestIsSound(limits, tokens, level, first.tree, i, first.index, depth, dependencies);
    } else if level == UNARY_LEVEL && tokens[i].OperatorToken? && IsUnary(tokens[i].op) {
      ParseIsSound(limits, tokens, UNARY_LEVEL, i + 1, depth + 1, dependencies);
      assert tokens[i..r.index][1..] == tokens[i + 1..r.index];
      CollectedSplit(dependencies, tokens, i, i, r.index);
      assert tokens[i..i] == [];
    } else if level == UNARY_LEVEL {
      ParseIsSound(limits, tokens, PRIMARY_LEVEL, i, depth, dependencies);
    } else {
      PrimaryIsSound(limits, tokens, i, depth, dependencies);
    }
  }

  lemma {:induction false} PrimaryIsSound(limits: Limits, tokens: seq<Token>, i: nat, depth: nat,
                                          dependencies: seq<Uuid>)
    requires Terminated(tokens) && i < |tokens| && depth <= limits.depth
    requires |dependencies| <= limits.dependencies
    requires ParseLevel(limits, tokens, PRIMARY_LEVEL, i, depth, dependencies).Parsed?
    ensures Sound(limits, tokens, PRIMARY_LEVEL, i, depth, dependencies,
                  ParseLevel(limits, tokens, PRIMARY_LEVEL, i, depth, dependencies))
    decreases |tokens| - i, 0, 0
  {
    var r := ParseLevel(limits, tokens, PRIMARY_LEVEL, i, depth, dependencies);
    if tokens[i] == LeftParenthesis {
      ParseIsSound(limits, tokens, 0, i + 1, depth + 1, dependencies);
      CollectedInside(dependencies, tokens, i, r.index);
    } else {
      assert tokens[i..i + 1] == [tokens[i]];
      CollectedOne(dependencies, tokens[i]);
    }
  }

  lemma {:induction false} RestIsSound(limits: Limits, tokens: seq<Token>, level: nat, left: Tree, i: nat, k: nat,
                                       depth: nat, dependencies: seq<Uuid>)
    requires Terminated(tokens) && i < k < |tokens| && level < UNARY_LEVEL && depth <= limits.depth
    requires Derives(level, tokens[i..k], left, limits.depth - depth)
    requires |Collected(dependencies, tokens[i..k])| <= limits.dependencies
    requires ParseRest(limits, tokens, level, left, k, depth, Collected(dependencies, tokens[i..k])).Parsed?
    ensures Sound(limits, tokens, level, i, depth, dependencies,
                  ParseRest(limits, tokens, level, left, k, depth, Collected(dependencies, tokens[i..k])))
    decreases |tokens| - k, PRIMARY_LEVEL - level, 0
  {
    if tokens[k].OperatorToken? && BinaryLevel(tokens[k].op) == level {
      var known := Collected(dependencies, tokens[i..k]);
      var right := ParseLevel(limits, tokens, level + 1, k + 1, depth, known);
      ParseIsSound(limits, tokens, level + 1, k + 1, depth, known);
      var tree := Binary(tokens[k].op, left, right.tree);
      var s := tokens[i..right.index];
      assert s[k - i] == OperatorToken(tree.op);
      assert s[..k - i] == tokens[i..k] && s[k - i + 1..] == tokens[k + 1..right.index];
      CollectedSplit(dependencies, tokens, i, k, right.index);
      RestIsSound(limits, tokens, level, tree, i, right.index, depth, dependencies);
    }
  }

  // ---------------------------------------------------------------- completeness

  lemma CollectedWithin(limits: Limits, dependencies: seq<Uuid>, tokens: seq<Token>, i: nat, k: nat, j: nat)
    requires i <= k < j <= |tokens| && !tokens[k].ReferenceToken?
    requires |Collected(dependencies, tokens[i..j])| <= limits.dependencies
    ensures |Collected(dependencies, tokens[i..k])| <= limits.dependencies
  {
    CollectedSplit(dependencies, tokens, i, k, j);
    AddReferencesGrows(Collected(dependencies, tokens[i..k]), TokenReferences(tokens[k + 1..j]));
  }

  /** Whatever is derivable and not carried on by the next token is what the parser returns. */
  lemma {:induction false} ParseIsComplete(limits: Limits, tokens: seq<Token>, level: nat, i: nat, j: nat, tree: Tree,
                                           depth: nat, dependencies: seq<Uuid>)
    requires Terminated(tokens) && i < j < |tokens| && level <= PRIMARY_LEVEL && depth <= limits.depth
    requires Derives(level, tokens[i..j], tree, limits.depth - depth) && !Continues(level, tokens[j])
    requires |Collected(dependencies, tokens[i..j])| <= limits.dependencies
    ensures ParseLevel(limits, tokens, level, i, depth, dependencies)
         == Parsed(tree, j, Collected(dependencies, tokens[i..j]))
    decreases j - i, PRIMARY_LEVEL - level, 1
  {
    var room := limits.depth - depth;
    var s := tokens[i..j];
    if level < UNARY_LEVEL {
      LoopIsReached(limits, tokens, level, i, j, tree, depth, dependencies);
    } else if level == UNARY_LEVEL && Derives(PRIMARY_LEVEL, s, tree, room) {
      assert s[0] == tokens[i];
      ParseIsComplete(limits, tokens, PRIMARY_LEVEL, i, j, tree, depth, dependencies);
    } else if level == UNARY_LEVEL {
      DerivesSome(UNARY_LEVEL, s[1..], tree.operand, room - 1);
      assert s[1..] == tokens[i + 1..j];
      CollectedSplit(dependencies, tokens, i, i, j);
      assert tokens[i..i] == [];
      ParseIsComplete(limits, tokens, UNARY_LEVEL, i + 1, j, tree.operand, depth + 1, dependencies);
    } else {
      PrimaryIsComplete(limits, tokens, i, j, tree, depth, dependencies);
    }
  }

  lemma {:induction false} PrimaryIsComplete(limits: Limits, tokens: seq<Token>, i: nat, j: nat, tree: Tree,
                                             depth: nat, dependencies: seq<Uuid>)
    requires Terminated(tokens) && i < j < |tokens| && depth <= limits.depth
    requires Derives(PRIMARY_LEVEL, tokens[i..j], tree, limits.depth - depth)
    requires |Collected(dependencies, tokens[i..j])| <= limits.dependencies
    ensures ParseLevel(limits, tokens, PRIMARY_LEVEL, i, depth, dependencies)
         == Parsed(tree, j, Collected(dependencies, tokens[i..j]))
    decreases j - i, 0, 0
  {
    var s := tokens[i..j];
    if s[0] == LeftParenthesis {
      DerivesSome(0, s[1..|s| - 1], tree, limits.depth - depth - 1);
      CollectedInside(dependencies, tokens, i, j);
      ParseIsComplete(limits, tokens, 0, i + 1, j - 1, tree, depth + 1, dependencies);
    } else {
      assert s == [tokens[i]];
      CollectedOne(dependencies, tokens[i]);
    }
  }

  /** A phrase derivable at a binary level brings the loop to its end with its tree. */
  lemma {:induction false} LoopIsReached(limits: Limits, tokens: seq<Token>, level: nat, i: nat, k: nat, tree: Tree,
                                         depth: nat, dependencies: seq<Uuid>)
    requires Terminated(tokens) && i < k < |tokens| && level < UNARY_LEVEL && depth <= limits.depth
    requires Derives(level, tokens[i..k], tree, limits.depth - depth) && !Continues(level + 1, tokens[k])
    requires |Collected(dependencies, tokens[i..k])| <= limits.dependencies
    ensures ParseLevel(limits, tokens, level, i, depth, dependencies)
         == ParseRest(limits, tokens, level, tree, k, depth, Collected(dependencies, tokens[i..k]))
    decreases k - i, PRIMARY_LEVEL - level, 0
  {
    if Derives(level + 1, tokens[i..k], tree, limits.depth - depth) {
      ParseIsComplete(limits, tokens, level + 1, i, k, tree, depth, dependencies);
    } else {
      var m := OperatorAt(tokens, level, i, k, tree, limits.depth - depth);
      LoopTurns(limits, tokens, level, i, m, k, tree, depth, dependencies);
    }
  }

  /** A phrase of a binary level that is none of the next one has its operator somewhere inside. */
  lemma OperatorWithin(s: seq<Token>, level: nat, tree: Tree, room: nat) returns (n: nat)
    requires level < UNARY_LEVEL && Derives(level, s, tree, room) && !Derives(level + 1, s, tree, room)
    ensures 0 < n < |s| - 1 && tree.Binary? && BinaryLevel(tree.op) == level && s[n] == OperatorToken(tree.op)
    ensures Derives(level, s[..n], tree.left, room) && Derives(level + 1, s[n + 1..], tree.right, room)
  {
    n :| 0 <= n < |s| && s[n] == OperatorToken(tree.op)
         && Derives(level, s[..n], tree.left, room) && Derives(level + 1, s[n + 1..], tree.right, room);
    DerivesSome(level, s[..n], tree.left, room);
    DerivesSome(level + 1, s[n + 1..], tree.right, room);
  }

  lemma OperatorAt(tokens: seq<Token>, level: nat, i: nat, k: nat, tree: Tree, room: nat) returns (m: nat)
    requires i < k <= |tokens| && level < UNARY_LEVEL
    requires Derives(level, tokens[i..k], tree, room) && !Derives(level + 1, tokens[i..k], tree, room)
    ensures i < m && m + 1 < k && tree.Binary? && BinaryLevel(tree.op) == level && tokens[m] == OperatorToken(tree.op)
    ensures Derives(level, tokens[i..m], tree.left, room) && Derives(level + 1, tokens[m + 1..k], tree.right, room)
  {
    var n := OperatorWithin(tokens[i..k], level, tree, room);
    m := i + n;
    SliceOfSlice(tokens, i, k, 0, n);
    SliceOfSlice(tokens, i, k, n + 1, k - i);
    assert tokens[i..k][..n] == tokens[i..k][0..n] && tokens[i..k][n + 1..] == tokens[i..k][n + 1..k - i];
  }

  /** One turn of the loop, from the operator at m to the end of its right operand. */
  lemma {:induction false} LoopTurns(limits: Limits, tokens: seq<Token>, level: nat, i: nat, m: nat, k: nat, tree: Tree,
                                     depth: nat, dependencies: seq<Uuid>)
    requires Terminated(tokens) && i < m && m + 1 < k < |tokens| && level < UNARY_LEVEL && depth <= limits.depth
    requires tree.Binary? && BinaryLevel(tree.op) == level && tokens[m] == OperatorToken(tree.op)
    requires Derives(level, tokens[i..m], tree.left, limits.depth - depth)
    requires Derives(level + 1, tokens[m + 1..k], tree.right, limits.depth - depth)
    requires !Continues(level + 1, tokens[k])
    requires |Collected(dependencies, tokens[i..k])| <= limits.dependencies
    ensures ParseLevel(limits, tokens, level, i, depth, dependencies)
         == ParseRest(limits, tokens, level, tree, k, depth, Collected(dependencies, tokens[i..k]))
    decreases k - i, 0, 0
  {
    var known := Collected(dependencies, tokens[i..m]);
    CollectedWithin(limits, dependencies, tokens, i, m, k);
    CollectedSplit(dependencies, tokens, i, m, k);
    LoopIsReached(limits, tokens, level, i, m, tree.left, depth, dependencies);
    ParseIsComplete(limits, tokens, level + 1, m + 1, k, tree.right, depth, known);
  }

  // ---------------------------------------------------------------- the whole expression

  datatype ExpressionResult =
    | Expression(root: Tree, dependencies: seq<Uuid>)
    | Rejected(error: ParseError)

  /** ParseExpression after lexing. */
  function ParseTokens(limits: Limits, tokens: seq<Token>): ExpressionResult
    requires Terminated(tokens)
  {
    var r := ParseLevel(limits, tokens, 0, 0, 0, []);
    if r.Failed? then Rejected(r.error)
    else if tokens[r.index] != EndToken then Rejected(InvalidExpression)
    else Expression(r.tree, r.dependencies)
  }

  /** The parser accepts a token sequence with a tree exactly when the whole sequence
      derives that tree within the limits. */
  lemma ParserMeetsGrammar(limits: Limits, tokens: seq<Token>, tree: Tree)
    requires Terminated(tokens)
    ensures ParseTokens(limits, tokens) == Expression(tree, AddReferences([], References(tree)))
       <==> Derives(0, tokens[..|tokens| - 1], tree, limits.depth)
            && |AddReferences([], References(tree))| <= limits.dependencies
  {
    var n := |tokens| - 1;
    if Derives(0, tokens[..n], tree, limits.depth) {
      DerivesReferences(0, tokens[..n], tree, limits.depth);
      DerivesSome(0, tokens[..n], tree, limits.depth);
      assert tokens[0..n] == tokens[..n];
      if |AddReferences([], References(tree))| <= limits.dependencies {
        ParseIsComplete(limits, tokens, 0, 0, n, tree, 0, []);
      }
    }
    if ParseTokens(limits, tokens) == Expression(tree, AddReferences([], References(tree))) {
      ParseIsSound(limits, tokens, 0, 0, 0, []);
      assert tokens[0..n] == tokens[..n];
    }
  }

  /** An accepted expression lists each reference of its tree once, and is derivable. */
  lemma AcceptedExpression(limits: Limits, tokens: seq<Token>)
    requires Terminated(tokens) && ParseTokens(limits, tokens).Expression?
    ensures var e := ParseTokens(limits, tokens);
            && Derives(0, tokens[..|tokens| - 1], e.root, limits.depth)
            && e.dependencies == AddReferences([], References(e.root))
            && Distinct(e.dependencies) && SetOf(e.dependencies) == SetOf(References(e.root))
            && |e.dependencies| <= limits.dependencies
  {
    var e := ParseTokens(limits, tokens);
    ParseIsSound(limits, tokens, 0, 0, 0, []);
    assert tokens[0..|tokens| - 1] == tokens[..|tokens| - 1];
    DerivesReferences(0, tokens[..|tokens| - 1], e.root, limits.depth);
    AddReferencesCollects([], References(e.root));
  }

  /** The grammar is unambiguous. */
  lemma GrammarIsUnambiguous(s: seq<Token>, t: Tree, u: Tree, room: nat, other: nat)
    requires EndToken !in s && Derives(0, s, t, room) && Derives(0, s, u, other)
    ensures t == u
  {
    var most := if room < other then other else room;
    MoreRoom(0, s, t, room, most);
    MoreRoom(0, s, u, other, most);
    DerivesReferences(0, s, t, room);
    DerivesReferences(0, s, u, other);
    var limits := Limits(most, |AddReferences([], References(t))|);
    var tokens := s + [EndToken];
    assert tokens[..|tokens| - 1] == s;
    ParserMeetsGrammar(limits, tokens, t);
    ParserMeetsGrammar(limits, tokens, u);
  }
}

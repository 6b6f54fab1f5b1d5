/** The recursive descent parser as it runs: one object whose position, nesting depth and
    collected dependencies every method updates, proved to compute ParseTokens. */
module ExpressionParser {
  import opened Identifiers
  import opened Expression
  import opened ExpressionGrammar

  datatype Node = Built(tree: Tree) | Refused(error: ParseError)

  class Parser {
    const limits: Limits
    const tokens: seq<Token>
    var index: nat
    var depth: nat
    var dependencies: seq<Uuid>
    var dependencySet: set<Uuid>

    /** The position never passes the end token. */
    ghost predicate Valid()
      reads this
    {
      && Terminated(tokens) && index < |tokens|
      && depth <= limits.depth
      && dependencySet == SetOf(dependencies)
    }

    /** The outcome and the new state are those of the specification. */
    ghost predicate Follows(node: Node, parse: Parse)
      reads this
    {
      match parse
      case Parsed(tree, i, collected) => node == Built(tree) && index == i && dependencies == collected
      case Failed(error) => node == Refused(error)
    }

    constructor (limits: Limits, tokens: seq<Token>)
      requires Terminated(tokens)
      ensures Valid() && this.limits == limits && this.tokens == tokens
      ensures index == 0 && depth == 0 && dependencies == []
    {
      this.limits, this.tokens := limits, tokens;
      index, depth := 0, 0;
      dependencies, dependencySet := [], {};
    }

    method ParseAt(level: nat) returns (node: Node)
      requires Valid() && level <= UNARY_LEVEL
      modifies this
      ensures Valid() && depth == old(depth)
      ensures Follows(node, ParseLevel(limits, tokens, level, old(index), old(depth), old(dependencies)))
      decreases |tokens| - index, PRIMARY_LEVEL - level, 1
    {
      if level < UNARY_LEVEL {
        node := ParseBinary(level);
      } else {
        node := ParseUnary();
      }
    }

    method ParseBinary(level: nat) returns (node: Node)
      requires Valid() && level < UNARY_LEVEL
      modifies this
      ensures Valid() && depth == old(depth)
      ensures Follows(node, ParseLevel(limits, tokens, level, old(index), old(depth), old(dependencies)))
      decreases |tokens| - index, PRIMARY_LEVEL - level, 0
    {
      ghost var whole := ParseLevel(limits, tokens, level, index, depth, dependencies);
      node := ParseAt(level + 1);
      if node.Refused? {
        return;
      }
      while tokens[index].OperatorToken? && BinaryLevel(tokens[index].op) == level
        invariant Valid() && depth == old(depth) && index > old(index) && node.Built?
        invariant whole == ParseRest(limits, tokens, level, node.tree, index, depth, dependencies)
        decreases |tokens| - index
      {
        var op := tokens[index].op;
        index := index + 1;
        var right := ParseAt(level + 1);
        if right.Refused? {
          return right;
        }
        node := Built(Binary(op, node.tree, right.tree));
      }
    }

    method ParseUnary() returns (node: Node)
      requires Valid()
      modifies this
      ensures Valid() && depth == old(depth)
      ensures Follows(node, ParseLevel(limits, tokens, UNARY_LEVEL, old(index), old(depth), old(dependencies)))
      decreases |tokens| - index, 1, 0
    {
      if tokens[index].OperatorToken? && IsUnary(tokens[index].op) {
        var op := tokens[index].op;
        index := index + 1;
        var entered := EnterDepth();
        if !entered {
          return Refused(ExpressionTooComplex);
        }
        node := ParseUnary();
        depth := depth - 1;
        if node.Built? {
          node := Built(Unary(op, node.tree));
        }
      } else {
        node := ParsePrimary();
      }
    }

    method ParsePrimary() returns (node: Node)
      requires Valid()
      modifies this
      ensures Valid() && depth == old(depth)
      ensures Follows(node, ParseLevel(limits, tokens, PRIMARY_LEVEL, old(index), old(depth), old(dependencies)))
      decreases |tokens| - index, 0, 0
    {
      match tokens[index]
      case NumberToken(n) =>
        index := index + 1;
        return Built(Number(n));
      case BooleanToken(b) =>
        index := index + 1;
        return Built(Boolean(b));
      case ReferenceToken(id) =>
        index := index + 1;
        if id !in dependencySet {
          if |dependencies| >= limits.dependencies {
            return Refused(ExpressionTooComplex);
          }
          dependencySet := dependencySet + {id};
          dependencies := dependencies + [id];
        }
        return Built(Reference(id));
      case LeftParenthesis =>
        index := index + 1;
        var entered := EnterDepth();
        if !entered {
          return Refused(ExpressionTooComplex);
        }
        node := ParseAt(0);
        depth := depth - 1;
        if node.Refused? {
          return;
        }
        if tokens[index] != RightParenthesis {
          return Refused(InvalidExpression);
        }
        index := index + 1;
      case _ =>
        return Refused(InvalidExpression);
    }

    /** One nesting level more, unless the limit is reached. */
    method EnterDepth() returns (entered: bool)
      requires Valid()
      modifies this`depth
      ensures Valid() && entered == (old(depth) < limits.depth)
      ensures depth == if entered then old(depth) + 1 else old(depth)
    {
      if depth + 1 > limits.depth {
        return false;
      }
      depth := depth + 1;
      return true;
    }
  }

  method ParseExpression(tokens: seq<Token>) returns (expression: ExpressionResult)
    requires Terminated(tokens)
    ensures expression == ParseTokens(Limits(32, 32), tokens)
  {
    var parser := new Parser(LIMITS, tokens);
    var node := parser.ParseAt(0);
    if node.Refused? {
      return Rejected(node.error);
    }
    if tokens[parser.index] != EndToken {
      return Rejected(InvalidExpression);
    }
    return Expression(node.tree, parser.dependencies);
  }
}

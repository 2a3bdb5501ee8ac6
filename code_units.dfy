/** The child sequence of a sealed node, the two queries over it that the
    method-invocation node derives its properties from, and the cache cell
    that holds a derived property. */
module CodeUnits {
  import opened Wrappers
  import opened Tokens

  datatype ExpressionType = MethodInvocation | MemberAccess | Literal | Other

  /** An expression node; `id` tells distinct node objects apart. */
  datatype Expression = Expression(expressionType: ExpressionType, id: nat)

  /** An argument node. */
  datatype Argument = Argument(id: nat)

  /** One child of a node: a nested expression, an argument, a number
      literal, or another token. */
  datatype CodeUnit =
    | ExpressionUnit(expression: Expression)
    | ArgumentUnit(argument: Argument)
    | NumberUnit(token: NumberToken)
    | TokenUnit(tokenType: TokenType, text: string)

  /** e is the first child of `children` that is an expression. */
  ghost predicate IsFirstExpression(children: seq<CodeUnit>, e: Expression) {
    exists i :: 0 <= i < |children| && children[i] == ExpressionUnit(e) &&
      forall j :: 0 <= j < i ==> !children[j].ExpressionUnit?
  }

  /** FindFirstChild<Expression>: the first child that is an expression, or
      None (null) when there is none. */
  function FindFirstExpression(children: seq<CodeUnit>): (r: Option<Expression>)
    ensures r.None? <==> forall i :: 0 <= i < |children| ==> !children[i].ExpressionUnit?
    ensures r.Some? ==> IsFirstExpression(children, r.value)
  {
    if children == [] then None
    else if children[0].ExpressionUnit? then
      assert children[0] == ExpressionUnit(children[0].expression);
      Some(children[0].expression)
    else
      var r := FindFirstExpression(children[1..]);
      assert r.None? ==> forall i :: 0 <= i < |children| ==> !children[i].ExpressionUnit? by {
        if r.None? {
          forall i | 0 <= i < |children| ensures !children[i].ExpressionUnit? {
            if i > 0 { assert children[i] == children[1..][i - 1]; }
          }
        }
      }
      assert r.Some? ==> IsFirstExpression(children, r.value) by {
        if r.Some? {
          var k :| 0 <= k < |children[1..]| && children[1..][k] == ExpressionUnit(r.value) &&
            forall j :: 0 <= j < k ==> !children[1..][j].ExpressionUnit?;
          assert children[k + 1] == ExpressionUnit(r.value);
          forall j | 0 <= j < k + 1 ensures !children[j].ExpressionUnit? {
            if j > 0 { assert children[j] == children[1..][j - 1]; }
          }
        }
      }
      r
  }

  /** CollectArguments: the argument children, in source order. */
  function CollectArguments(children: seq<CodeUnit>): (r: seq<Argument>)
    ensures |r| <= |children|
    ensures forall a :: a in r <==> ArgumentUnit(a) in children
  {
    if children == [] then []
    else
      var rest := CollectArguments(children[1..]);
      assert children == [children[0]] + children[1..];
      if children[0].ArgumentUnit? then [children[0].argument] + rest else rest
  }

  /** Collecting over two runs of children collects each run in turn, so the
      arguments keep the order of the children they come from. */
  lemma {:induction false} CollectArgumentsAppend(a: seq<CodeUnit>, b: seq<CodeUnit>)
    ensures CollectArguments(a + b) == CollectArguments(a) + CollectArguments(b)
  {
    if a == [] {
      assert a + b == b;
    } else {
      assert (a + b)[1..] == a[1..] + b;
      CollectArgumentsAppend(a[1..], b);
    }
  }

  /** The first expression of two runs of children is the first run's, or
      the second run's when the first has none. */
  lemma {:induction false} FindFirstExpressionAppend(a: seq<CodeUnit>, b: seq<CodeUnit>)
    ensures FindFirstExpression(a + b) ==
      if FindFirstExpression(a).Some? then FindFirstExpression(a) else FindFirstExpression(b)
  {
    if a == [] {
      assert a + b == b;
    } else {
      assert (a + b)[0] == a[0];
      assert (a + b)[1..] == a[1..] + b;
      FindFirstExpressionAppend(a[1..], b);
    }
  }

  /** CodeUnitProperty<T>: a cache cell holding a derived property. Setting
      its value marks it initialized; Reset drops the value. */
  datatype CodeUnitProperty<T> = CodeUnitProperty(initialized: bool, value: Option<T>) {

    /** The `Value` setter. */
    function Set(v: Option<T>): (c: CodeUnitProperty<T>)
      ensures c.initialized && c.value == v
    {
      CodeUnitProperty(true, v)
    }

    /** `Reset()`: back to the state of a cell never set. */
    function Reset(): (c: CodeUnitProperty<T>)
      ensures !c.initialized && c.value.None?
    {
      CodeUnitProperty(false, None)
    }
  }
}

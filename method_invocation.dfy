/** The method-invocation expression node and its two lazily computed,
    cached properties: the method name and the argument list. */
module Expressions {
  import opened Wrappers
  import opened Tokens
  import opened CodeUnits

  /** The exception thrown when a required child is missing; it carries the
      node's document and line number. */
  datatype SyntaxException = SyntaxException(document: CsDocument, lineNumber: nat)

  /** What the node builder hands to the constructor: the owning document,
      the node's line, its sealed child sequence and the document's edit
      version at the time. */
  datatype CodeUnitProxy = CodeUnitProxy(document: CsDocument, lineNumber: nat, children: seq<CodeUnit>, editVersion: nat)

  /** One read of a cached property: the cell afterwards and what the getter
      returned or threw. */
  datatype Access<T, R> = Access(cell: CodeUnitProperty<T>, result: R)

  /** The name cell never holds null once it is initialized. */
  predicate NameCellHolds(cell: CodeUnitProperty<Expression>) {
    cell.initialized ==> cell.value.Some?
  }

  /** The arguments cell, once initialized, holds the list collected from
      the children. */
  predicate ArgumentsCellHolds(cell: CodeUnitProperty<seq<Argument>>, children: seq<CodeUnit>) {
    cell.initialized ==> cell.value == Some(CollectArguments(children))
  }

  // ---------------------------------------------------------------------
  // The Name getter

  /** The Name getter as written: the search result is stored, and the cell
      marked initialized, before it is tested for null. */
  function ReadNameAsWritten(
    cell: CodeUnitProperty<Expression>, children: seq<CodeUnit>,
    document: CsDocument, lineNumber: nat): (a: Access<Expression, Result<Option<Expression>, SyntaxException>>)
    ensures cell.initialized ==> a == Access(cell, Success(cell.value))
    ensures !cell.initialized ==> a.cell.initialized && a.cell.value == FindFirstExpression(children)
    ensures a.result.Failure? <==> !cell.initialized && FindFirstExpression(children).None?
    ensures !cell.initialized && a.result.Success? ==> a.result.value == a.cell.value
    ensures a.result.Failure? ==> a.result.error == SyntaxException(document, lineNumber)
  {
    if cell.initialized then Access(cell, Success(cell.value))
    else
      var stored := cell.Set(FindFirstExpression(children));
      if stored.value.None? then Access(stored, Failure(SyntaxException(document, lineNumber)))
      else Access(stored, Success(stored.value))
  }

  /** As written, a node with no expression child throws on the first read of
      Name and returns null on the second. */
  lemma AsWrittenSecondReadReturnsNull(
    cell: CodeUnitProperty<Expression>, children: seq<CodeUnit>,
    document: CsDocument, lineNumber: nat)
    requires !cell.initialized
    requires forall i :: 0 <= i < |children| ==> !children[i].ExpressionUnit?
    ensures ReadNameAsWritten(cell, children, document, lineNumber).result
            == Failure(SyntaxException(document, lineNumber))
    ensures ReadNameAsWritten(ReadNameAsWritten(cell, children, document, lineNumber).cell,
                              children, document, lineNumber).result == Success(None)
  {
  }

  /** The Name getter: a cached name is returned as is; otherwise the first
      expression child is stored and returned, and when there is none the
      getter throws and leaves the cell uninitialized. */
  function ReadName(
    cell: CodeUnitProperty<Expression>, children: seq<CodeUnit>,
    document: CsDocument, lineNumber: nat): (a: Access<Expression, Result<Expression, SyntaxException>>)
    requires NameCellHolds(cell)
    ensures NameCellHolds(a.cell)
    ensures cell.initialized ==> a == Access(cell, Success(cell.value.value))
    ensures !cell.initialized ==>
      (a.result.Success? <==> exists i :: 0 <= i < |children| && children[i].ExpressionUnit?)
    ensures !cell.initialized && a.result.Success? ==>
      IsFirstExpression(children, a.result.value) && a.cell == cell.Set(Some(a.result.value))
    ensures a.result.Failure? ==>
      a.result.error == SyntaxException(document, lineNumber) && a.cell == cell
  {
    if cell.initialized then Access(cell, Success(cell.value.value))
    else
      match FindFirstExpression(children)
      case None => Access(cell, Failure(SyntaxException(document, lineNumber)))
      case Some(e) => Access(cell.Set(Some(e)), Success(e))
  }

  /** A second read of Name answers exactly as the first did, whether the
      first returned a name or threw. */
  lemma {:induction false} ReadNameStable(
    cell: CodeUnitProperty<Expression>, children: seq<CodeUnit>,
    document: CsDocument, lineNumber: nat)
    requires NameCellHolds(cell)
    ensures var first := ReadName(cell, children, document, lineNumber);
            ReadName(first.cell, children, document, lineNumber) == first
  {
  }

  /** The results of n successive reads of Name with no reset between them. */
  function ReadNameRepeatedly(
    cell: CodeUnitProperty<Expression>, children: seq<CodeUnit>,
    document: CsDocument, lineNumber: nat, n: nat): (rs: seq<Result<Expression, SyntaxException>>)
    requires NameCellHolds(cell)
    ensures |rs| == n
    decreases n
  {
    if n == 0 then []
    else
      var a := ReadName(cell, children, document, lineNumber);
      [a.result] + ReadNameRepeatedly(a.cell, children, document, lineNumber, n - 1)
  }

  /** Every one of n successive reads of Name gives the result of the first. */
  lemma {:induction false} RepeatedNameReadsAgree(
    cell: CodeUnitProperty<Expression>, children: seq<CodeUnit>,
    document: CsDocument, lineNumber: nat, n: nat)
    requires NameCellHolds(cell)
    ensures forall i :: 0 <= i < n ==>
      ReadNameRepeatedly(cell, children, document, lineNumber, n)[i]
        == ReadName(cell, children, document, lineNumber).result
    decreases n
  {
    if n > 0 {
      var a := ReadName(cell, children, document, lineNumber);
      ReadNameStable(cell, children, document, lineNumber);
      RepeatedNameReadsAgree(a.cell, children, document, lineNumber, n - 1);
      var rs := ReadNameRepeatedly(cell, children, document, lineNumber, n);
      assert rs == [a.result] + ReadNameRepeatedly(a.cell, children, document, lineNumber, n - 1);
      forall i | 0 <= i < n ensures rs[i] == a.result {
        if i > 0 {
          assert rs[i] == ReadNameRepeatedly(a.cell, children, document, lineNumber, n - 1)[i - 1];
        }
      }
    }
  }

  // ---------------------------------------------------------------------
  // The Arguments getter

  /** The Arguments getter: a cached list is returned as is; otherwise the
      argument children are collected, stored and returned. The list may be
      empty but is never absent. */
  function ReadArguments(
    cell: CodeUnitProperty<seq<Argument>>, children: seq<CodeUnit>): (a: Access<seq<Argument>, seq<Argument>>)
    requires cell.initialized ==> cell.value.Some?
    ensures a.cell.initialized && a.cell.value == Some(a.result)
    ensures cell.initialized ==> a == Access(cell, cell.value.value)
    ensures !cell.initialized ==> forall x :: x in a.result <==> ArgumentUnit(x) in children
    ensures !cell.initialized ==> ArgumentsCellHolds(a.cell, children)
  {
    if cell.initialized then Access(cell, cell.value.value)
    else
      var collected := CollectArguments(children);
      Access(cell.Set(Some(collected)), collected)
  }

  /** After Reset, the next reads of both properties recompute them from the
      children, whatever the cells held before. */
  lemma ResetRecomputes(
    nameCell: CodeUnitProperty<Expression>, argumentsCell: CodeUnitProperty<seq<Argument>>,
    children: seq<CodeUnit>, document: CsDocument, lineNumber: nat)
    ensures ReadArguments(argumentsCell.Reset(), children).result == CollectArguments(children)
    ensures ReadName(nameCell.Reset(), children, document, lineNumber).result ==
      match FindFirstExpression(children)
      case Some(e) => Success(e)
      case None => Failure(SyntaxException(document, lineNumber))
  {
  }

  /** `foo.Bar(x, y)`: the name is the member access `foo.Bar` and there are
      two arguments; `foo.Bar()` has an empty, not absent, argument list. */
  lemma InvocationExamples(document: CsDocument, lineNumber: nat, fooBar: Expression, x: Argument, y: Argument)
    ensures var children := [ExpressionUnit(fooBar), TokenUnit(OpenParenthesis, "("), ArgumentUnit(x),
                             TokenUnit(Comma, ","), ArgumentUnit(y), TokenUnit(CloseParenthesis, ")")];
            ReadName(CodeUnitProperty(false, None), children, document, lineNumber).result == Success(fooBar) &&
            ReadArguments(CodeUnitProperty(false, None), children).result == [x, y]
    ensures var children := [ExpressionUnit(fooBar), TokenUnit(OpenParenthesis, "("), TokenUnit(CloseParenthesis, ")")];
            ReadArguments(CodeUnitProperty(false, None), children).result == []
  {
    var children := [ExpressionUnit(fooBar), TokenUnit(OpenParenthesis, "("), ArgumentUnit(x),
                     TokenUnit(Comma, ","), ArgumentUnit(y), TokenUnit(CloseParenthesis, ")")];
    assert CollectArguments(children[5..]) == [];
    assert CollectArguments(children[4..]) == [y];
    assert CollectArguments(children[3..]) == [y];
    assert CollectArguments(children[2..]) == [x, y];
    assert CollectArguments(children[1..]) == [x, y];
    var empty := [ExpressionUnit(fooBar), TokenUnit(OpenParenthesis, "("), TokenUnit(CloseParenthesis, ")")];
    assert CollectArguments(empty[1..]) == [];
    assert ReadArguments(CodeUnitProperty(false, None), empty).result == CollectArguments(empty);
  }

  // ---------------------------------------------------------------------
  // The node

  class MethodInvocationExpression {
    const document: CsDocument
    const lineNumber: nat
    const children: seq<CodeUnit>
    const expressionType: ExpressionType

    /** The document edit version the node's cells were computed against. */
    var editVersion: nat
    /** The method name. */
    var name: CodeUnitProperty<Expression>
    /** The arguments passed to the method. */
    var arguments: CodeUnitProperty<seq<Argument>>

    ghost predicate Valid()
      reads this
    {
      expressionType == MethodInvocation &&
      NameCellHolds(name) &&
      ArgumentsCellHolds(arguments, children)
    }

    /** The constructor stores the given, non-null name in the name cell. */
    constructor (proxy: CodeUnitProxy, name: Option<Expression>)
      requires name.Some?
      ensures Valid()
      ensures document == proxy.document && lineNumber == proxy.lineNumber && children == proxy.children
      ensures editVersion == proxy.editVersion
      ensures expressionType == MethodInvocation
      ensures this.name.initialized && this.name.value == name
      ensures !arguments.initialized
    {
      document := proxy.document;
      lineNumber := proxy.lineNumber;
      children := proxy.children;
      editVersion := proxy.editVersion;
      expressionType := MethodInvocation;
      this.name := CodeUnitProperty(false, None).Set(name);
      arguments := CodeUnitProperty(false, None);
    }

    /** Brings the node up to the document's current edit version. A node
        already at that version keeps both cells; a stale node either keeps
        them or has both cleared. */
    method ValidateEditVersion(documentVersion: nat)
      requires Valid()
      modifies this`editVersion, this`name, this`arguments
      ensures Valid()
      ensures editVersion == documentVersion
      ensures old(editVersion) == documentVersion ==> name == old(name) && arguments == old(arguments)
      ensures (name == old(name) && arguments == old(arguments)) ||
              (name == old(name).Reset() && arguments == old(arguments).Reset())
    {
      if editVersion != documentVersion {
        Reset();
        editVersion := documentVersion;
      }
    }

    /** The `Name` getter, reading against the document's current edit
        version. */
    method Name(documentVersion: nat) returns (r: Result<Expression, SyntaxException>)
      requires Valid()
      modifies this`editVersion, this`name, this`arguments
      ensures Valid()
      ensures editVersion == documentVersion
      ensures old(editVersion) == documentVersion ==>
        Access(name, r) == ReadName(old(name), children, document, lineNumber) &&
        arguments == old(arguments)
      ensures (Access(name, r) == ReadName(old(name), children, document, lineNumber) &&
               arguments == old(arguments)) ||
              (Access(name, r) == ReadName(old(name).Reset(), children, document, lineNumber) &&
               arguments == old(arguments).Reset())
    {
      ValidateEditVersion(documentVersion);
      if !name.initialized {
        var found := FindFirstExpression(children);
        if found.None? {
          r := Failure(SyntaxException(document, lineNumber));
          return;
        }
        name := name.Set(found);
      }
      r := Success(name.value.value);
    }

    /** The `Arguments` getter, reading against the document's current edit
        version. */
    method Arguments(documentVersion: nat) returns (r: seq<Argument>)
      requires Valid()
      modifies this`editVersion, this`name, this`arguments
      ensures Valid()
      ensures editVersion == documentVersion
      ensures r == CollectArguments(children)
      ensures old(editVersion) == documentVersion ==>
        Access(arguments, r) == ReadArguments(old(arguments), children) &&
        name == old(name)
      ensures (Access(arguments, r) == ReadArguments(old(arguments), children) &&
               name == old(name)) ||
              (Access(arguments, r) == ReadArguments(old(arguments).Reset(), children) &&
               name == old(name).Reset())
    {
      ValidateEditVersion(documentVersion);
      if !arguments.initialized {
        arguments := arguments.Set(Some(CollectArguments(children)));
      }
      r := arguments.value.value;
    }

    /** `Reset()`: both cells cleared, so the next reads recompute them. */
    method Reset()
      requires Valid()
      modifies this`name, this`arguments
      ensures Valid()
      ensures name == old(name).Reset() && arguments == old(arguments).Reset()
    {
      name := name.Reset();
      arguments := arguments.Reset();
    }
  }

  /** Two reads of Name against the same document version answer alike, and
      two reads of Arguments likewise. */
  method ReadTwice(e: MethodInvocationExpression, documentVersion: nat)
    returns (n1: Result<Expression, SyntaxException>, n2: Result<Expression, SyntaxException>,
             a1: seq<Argument>, a2: seq<Argument>)
    requires e.Valid()
    modifies e`editVersion, e`name, e`arguments
    ensures n1 == n2 && a1 == a2
  {
    n1 := e.Name(documentVersion);
    n2 := e.Name(documentVersion);
    a1 := e.Arguments(documentVersion);
    a2 := e.Arguments(documentVersion);
  }
}

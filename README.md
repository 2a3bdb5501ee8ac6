# StyleCop C# code model: cached method-invocation properties and number tokens

This project models two pieces of the StyleCop C# code model in Dafny.

- **`MethodInvocationExpression`** is a syntax-tree node with two cache cells:
  - the method name,
  - the argument list.

  The node derives both from its sealed child sequence the first time each is read, then returns the cached value. `Reset` clears both cells so that the next read recomputes. Each getter first calls `ValidateEditVersion`, then consults its cell. A missing name throws a `SyntaxException` that carries the node's document and line number.
- **`NumberToken`** is the leaf token for numeric literals. Both of its constructors fix the token type to `Number` and keep the text exactly as given. The located constructor also keeps a location and a `generated` flag.

Layout:

- `wrappers.dfy`: `Option`, which stands for a nullable reference, and `Result`, for a getter that returns or throws.
- `tokens.dfy`: module `Tokens`, holding the token types, the document identity, `CodeLocation` and `NumberToken` with its two constructors.
- `code_units.dfy`: module `CodeUnits`, holding:
  - the child sequence of a node (expression, argument and token children),
  - `FindFirstChild<Expression>` as `FindFirstExpression`,
  - `CollectArguments`,
  - number-literal children, which hold a `NumberToken`,
  - the cache cell `CodeUnitProperty<T>` as a datatype, because in C# it is a struct stored in a field.
- `method_invocation.dfy`: module `Expressions`, holding:
  - each getter as a step function from the old cell to the new cell and the getter's outcome,
  - the lemmas about those step functions,
  - the class `MethodInvocationExpression`. It carries the edit version its cells were computed against. Each getter takes the document's current edit version, validates against it first, and is specified by the step functions applied to the cells as validation left them.

A `requires` clause models each `Param.Assert*` call and the `Debug.Assert`, because they are obligations on the internal callers. A nullable argument is an `Option`, and the precondition is that it is `Some`.

## Model

| member | source | states |
|---|---|---|
| `Tokens.NewNumberToken` | Project.AutoFix/Src/AddIns/CSharp/CodeModel/Tokens/NumberToken.cs:29-34 | needs a non-null document and a non-null, non-empty text; the token has type Number, keeps the document, has exactly the given text and carries no location |
| `Tokens.NewLocatedNumberToken` | Project.AutoFix/Src/AddIns/CSharp/CodeModel/Tokens/NumberToken.cs:43-50 | needs a non-null document, a valid text and a non-null location; the token has type Number, keeps the text unchanged, and passes the location and the `generated` flag (either value) through |
| `Tokens.LocatedNumberTokenInjective` | Project.AutoFix/Src/AddIns/CSharp/CodeModel/Tokens/NumberToken.cs:43-44 | two located tokens are equal exactly when they were built from equal document, text, location and flag, so no argument is normalised or dropped |
| `Tokens.ValidNumberTokenIsConstructed` | Project.AutoFix/Src/AddIns/CSharp/CodeModel/Tokens/NumberToken.cs:29-50 | every token with type Number and non-empty text is what one of the two constructors returns for its own fields |
| `CodeUnits.FindFirstExpression` | Project/Src/AddIns/CSharp/CodeModel/Expressions/MethodInvocationExpression.cs:71 | the result is null exactly when no child is an expression; otherwise it is the first expression child |
| `CodeUnits.FindFirstExpressionAppend` | Project/Src/AddIns/CSharp/CodeModel/Expressions/MethodInvocationExpression.cs:71 | the first expression of two runs of children is the first run's, or the second run's when the first run has none |
| `CodeUnits.CollectArguments` | Project/Src/AddIns/CSharp/CodeModel/Expressions/MethodInvocationExpression.cs:93 | the collected list is never longer than the children, and it holds an argument exactly when that argument is a child |
| `CodeUnits.CollectArgumentsAppend` | Project/Src/AddIns/CSharp/CodeModel/Expressions/MethodInvocationExpression.cs:93 | collecting over two runs of children gives the first run's arguments followed by the second's, so the source order is kept |
| `Expressions.ReadNameAsWritten` | Project/Src/AddIns/CSharp/CodeModel/Expressions/MethodInvocationExpression.cs:63-79 | the getter as written: a cached cell is returned unchanged; otherwise the search result, null included, is stored and the cell is marked initialized, and the getter returns what was stored; it throws `SyntaxException(document, line)` exactly when the cell was empty and no expression child exists |
| `Expressions.AsWrittenSecondReadReturnsNull` | Project/Src/AddIns/CSharp/CodeModel/Expressions/MethodInvocationExpression.cs:69-78 | as written, with an empty cell and no expression child, the first read throws `SyntaxException(document, line)` and the second read returns null |
| `Expressions.ReadName` | Project/Src/AddIns/CSharp/CodeModel/Expressions/MethodInvocationExpression.cs:63-79 | a cached name is returned with the cell unchanged; from an empty cell the read succeeds exactly when some child is an expression, returns the first expression child and caches it; otherwise it throws `SyntaxException(document, line)` and leaves the cell empty; the cell never holds null |
| `Expressions.ReadNameStable` | Project/Src/AddIns/CSharp/CodeModel/Expressions/MethodInvocationExpression.cs:69-78 | a second read of Name leaves the cell as it is and gives the same result as the first, whether that was a name or a thrown exception |
| `Expressions.RepeatedNameReadsAgree` | Project/Src/AddIns/CSharp/CodeModel/Expressions/MethodInvocationExpression.cs:69-78 | every one of any number of successive reads of Name with no reset between them gives the first read's result |
| `Expressions.ReadArguments` | Project/Src/AddIns/CSharp/CodeModel/Expressions/MethodInvocationExpression.cs:85-98 | the cell is initialized afterwards and holds the returned, never absent list; a cached list is returned unchanged; from an empty cell the list holds exactly the argument children |
| `Expressions.ResetRecomputes` | Project/Src/AddIns/CSharp/CodeModel/Expressions/MethodInvocationExpression.cs:108-114 | after a reset, whatever the cells held, the next Arguments read returns the collected children and the next Name read returns the first expression child or throws |
| `Expressions.InvocationExamples` | Project/Src/AddIns/CSharp/CodeModel/Expressions/MethodInvocationExpression.cs:63-98 | for `foo.Bar(x, y)`, Name is `foo.Bar` and Arguments is `[x, y]`; for `foo.Bar()`, Arguments is empty |
| `Expressions.MethodInvocationExpression.constructor` | Project/Src/AddIns/CSharp/CodeModel/Expressions/MethodInvocationExpression.cs:47-54 | needs a non-null name; the expression type is MethodInvocation, the name cell holds the given name, the arguments cell is empty, and the document, line, children and edit version come from the proxy |
| `Expressions.MethodInvocationExpression.ValidateEditVersion` | Project/Src/AddIns/CSharp/CodeModel/Expressions/MethodInvocationExpression.cs:67 | afterwards the node is at the document's edit version; a node already at that version keeps both cells; a stale node either keeps both cells or has both cleared |
| `Expressions.MethodInvocationExpression.Name` | Project/Src/AddIns/CSharp/CodeModel/Expressions/MethodInvocationExpression.cs:63-79 | validates the edit version before consulting the name cell: the result and new name cell are those of `ReadName` on the cell as validation left it (the old cell, or a cleared one for a stale node); at the current version the arguments cell is untouched |
| `Expressions.MethodInvocationExpression.Arguments` | Project/Src/AddIns/CSharp/CodeModel/Expressions/MethodInvocationExpression.cs:85-98 | validates the edit version before consulting the arguments cell: the result and new arguments cell are those of `ReadArguments` on the cell as validation left it; the result is the collected argument children; at the current version the name cell is untouched |
| `Expressions.MethodInvocationExpression.Reset` | Project/Src/AddIns/CSharp/CodeModel/Expressions/MethodInvocationExpression.cs:108-114 | leaves both cells uninitialized and empty, so the next reads recompute them |
| `Expressions.ReadTwice` | Project/Src/AddIns/CSharp/CodeModel/Expressions/MethodInvocationExpression.cs:63-98 | on a node, two reads of Name in a row against the same edit version answer alike, and so do two reads of Arguments |

## Left out

- `Expressions.MethodInvocationExpression.ValidateEditVersion`: its body is not part of this model. Its contract promises only that a node at the current version keeps its cells and that a stale node keeps both cells or has both cleared. Whether it resets a stale node's cells is not part of this model.
- `Expressions.MethodInvocationExpression.Reset`: the base class's `Reset`, which runs first, is not part of this model.
- `Expressions.MethodInvocationExpression.constructor`: the node's initial edit version is taken from the node builder's proxy. How the real base class stamps it is not part of this model.
- `Expressions.MethodInvocationExpression.Arguments`: the list is returned by value. In C# every caller shares the cached `IList<Argument>` reference, so a caller that mutates it changes what later reads return. That sharing and mutation are not modelled.
- `CollectArguments` and `FindFirstChild<Expression>`: their bodies are not part of this model. They are modelled over the node's direct children:
  - the first expression child,
  - the argument children in source order.

  The real parser may nest arguments inside an argument-list node.
- `CodeUnitProperty<T>`: its body is not part of this model. Assumed: the `Value` setter sets `Initialized` for any value, null included, and `Reset` clears `Initialized` and drops the value.
- `Tokens.NewNumberToken`: what the base `SimpleToken` constructor gives a token built without a location is not part of this model. That covers its location and its `generated` flag, and the token is modelled as having no placement.
- The child sequence is fixed once the node is sealed. Document edits and the lexer are not part of this model. The document's current edit version is a parameter of each getter.
- Thread safety of the cache cells is left out. Nothing in the modelled code addresses it.
- The ReSharper quick-fix wrappers `SA1617VoidReturnValueMustNotBeDocumentedBulbItem` and `SA1639FileHeaderMustHaveSummaryBulbItem` are left out. They only forward to host-IDE APIs and to documentation rules that are not part of this model.

## Findings

| source | as written | input that shows it | evidently intended | confidence | as-written member | corrected member |
|---|---|---|---|---|---|---|
| Project/Src/AddIns/CSharp/CodeModel/Expressions/MethodInvocationExpression.cs:71-75 | the search result is stored into the name cell, which marks it initialized, before the null test. A failed read therefore leaves an initialized cell that holds null. | a node whose name cell was reset and whose children include no expression: the first read of `Name` throws `SyntaxException`, and the second read returns null | `Name` never returns null. Every read throws until an expression child exists, and nothing is cached on failure. | medium, not executed. It assumes the `Value` setter marks the cell initialized even for null. | `Expressions.AsWrittenSecondReadReturnsNull` | `Expressions.ReadName` |

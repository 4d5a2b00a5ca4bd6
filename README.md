# jlogic in Dafny

jlogic is a small Prolog-style logic interpreter written in Java. A program
is a list of rules. Each rule has a head, which is a structure such as
`parent(X,Y)`, and an optional body of goals. A query is a structure that
the interpreter solves by depth-first resolution with backtracking.

This project models the core of jlogic and proves properties about it:

- **Terms** (module `Terms`): atoms, variables, the anonymous variable `_` and
  structures. It covers their constructors and validity checks, Java `equals`
  and `hashCode`, `toString`, and the `name/arity` full name that keys a
  predicate.
- **Frames** (`Frames`): the mutable map from variables to terms.
- **Internal variables** (`InternalVariables`): the counter-based factory of
  fresh `_G<n>` variables.
- **Matching** (`Matching`): `Match.match`, the unifier. Its pure
  specification is `Unify` and friends. The Java methods that return a frame,
  or null, are modelled by `Match` and friends.
- **Instantiation** (`Instantiation`): the `Instantiator` visitor.
- **Renaming** (`Internalizing`): the `FreeVariablesInternalizer` visitor. It
  renames each free external variable to a fresh internal variable and
  records the renaming in a frame.
- **Rules, predicates and the knowledge base** (`Rules`, `Predicates`,
  `KnowledgeBase`): rule construction, the uniform-arity check, and the
  grouping of rules into predicates by full name.
- **One resolution step** (`Resolution`): the do-while loop that both search
  engines run over the clauses of the leading goal's predicate. It is
  specified once, as `TryClause`/`TryClauses`.
  `TryClauseRenamesApart` proves that the renaming before each clause keeps
  the clause's variables apart from the node's own. `RootRenamedApart`
  establishes the same invariant for the root. The parser never produces an
  internal variable (`ParsedRulesHaveNoInternalVariables`).
- **The search tree** (`SearchTrees`): `SearchTree` with its inner `Node`
  class. Nodes live in a list and are linked by index. `current` holds
  control, and `searchOne` drives the tree until a result is found.
- **The search node** (`SearchNodes`): the stand-alone `SearchNode` class,
  whose `searchOne` returns a `SearchResult`.
- **The reader** (`Lexing`, `Parsing`): the character-level `Lexer` and the
  recursive-descent `Parser` that turns program text into a `Knowledge`.

Each stateful Java class is a Dafny `class`:

- `Frame`, `InternalVariableFactory`, `FreeVariablesInternalizer`,
  `Knowledge`, `SearchTree`, `SearchNode`, `Lexer` and `Parser`.
- Their methods are proved against pure specification functions of the old
  state, such as `Unify`, `Internalize`, `TryClauses`, `NextToken`, `TermAt`
  and `RulesFrom`.
- The properties are proved about those functions.

Java `null` is modelled as `Option.None`, and a thrown exception as
`Result.Err`. Where the Java code would recurse or loop without bound, the
model makes that explicit:

- the unifier takes `fuel`;
- the tree search takes a step budget;
- the lexer reports `Hangs` where it spins forever.

In a few places the code behaves differently from what a Prolog reader
would expect. The model follows the code:

- **Structure equality is identity only.** In Prolog, structurally equal
  terms are equal. Here `Structure.equals` returns false for every other
  object (src/jlogic/term/Structure.java:27). `Matching.UnifySelf` shows
  that matching a term with itself still succeeds without adding bindings.
- **A variable can be bound to `_`.** In Prolog the anonymous variable is
  never bound and binds nothing. Here matching an unbound variable with the
  anonymous variable binds it to `_` (src/jlogic/interpret/Match.java:37-40).
- **Instantiation is one level deep.** In Prolog an answer shows each
  variable fully dereferenced. Here a bound variable is replaced by its
  binding, but chains of bindings are not followed
  (src/jlogic/interpret/Instantiator.java:40-45); `Instantiation.OneLevel`
  shows such a chain.
- **Matching is not symmetric.** In Prolog, `A = B` fails exactly when
  `B = A` fails. Here matching `g(f(X,Y), f(Z,b))` with `g(f(Y,X), f(X,a))`
  fails. In the other order the bound X ends up on the left of the second
  pair, so the cycle between X and Y is chased without end
  (src/jlogic/interpret/Match.java:53-61); `Matching.UnifyAsymmetric` proves
  both.
- **Identifiers start with a letter** (src/jlogic/read/Lexer.java:51), so,
  unlike in Prolog, a number such as `42` cannot be written at all.
- **A rule head must be a structure.** In Prolog `p.` is a fact with an
  atom head. Here the head goes through `parseStructure`, which rejects a
  bare atom (src/jlogic/read/Parser.java:83-89).

`SearchTree.java` and `SearchNode.java` call helper classes named
`InternalizeFreeVariables` and `Instantiate`. The model takes these to be
the `FreeVariablesInternalizer` and `Instantiator` visitors of the same
package.

## Model

| member | source | states |
|---|---|---|
| Text.DigitChar | src/jlogic/term/Structure.java:79-81 | a digit below ten becomes the character of that digit |
| Text.NatToString | src/jlogic/term/Structure.java:79-81 | the decimal form of an arity is a non-empty string of digits |
| Text.NatToStringRoundTrip | src/jlogic/term/Structure.java:79-81 | reading the decimal form back gives the number |
| Text.NatToStringInjective | src/jlogic/term/Structure.java:79-81 | two numbers have the same decimal form only if they are equal |
| Text.JavaHash | src/jlogic/term/Variable.java:29-31 | `String.hashCode` stays in the signed 32-bit range |
| Text.UnsignedHash | src/jlogic/term/Variable.java:29-31 | the wrapped polynomial hash stays in the unsigned 32-bit range |
| Terms.NewAtom | src/jlogic/term/Atom.java:6-13 | an atom is built exactly when the name is not null, and prints as its name; a null name raises "name must not be null" |
| Terms.NewVariable | src/jlogic/term/Variable.java:6-13 | a variable is built exactly when the name is non-null, non-empty and starts with `_` or an upper-case letter; it prints as its name; otherwise the error is "name must not be null" or "name is invalid" |
| Terms.IsValidVariableName | src/jlogic/term/Variable.java:47-52 | a valid variable name is non-empty and starts with neither a lower-case letter nor a digit; every name starting with `_` is valid |
| Terms.NewStructure | src/jlogic/term/Structure.java:7-15 | a structure is built exactly when the functor and the arguments are both non-null, and keeps the functor |
| Terms.Arity | src/jlogic/term/Structure.java:71-73 | the arity is zero exactly when the argument list is empty |
| Terms.FullNameOfParts | src/jlogic/term/Structure.java:79-81 | a full name is the name, a `/`, then decimal digits that read back as the arity |
| Terms.FullNameParts | src/jlogic/term/Structure.java:79-81 | a structure's full name starts with its functor and `/`, and its digits read back as the number of arguments |
| Terms.FullNameInjective | src/jlogic/term/Structure.java:79-81 | `name/arity` keys are equal exactly when the names and the arities are equal |
| Terms.SlashInLongerSuffix | src/jlogic/term/Structure.java:79-81 | when two `prefix/suffix` splits of one string differ, the longer suffix contains the other slash |
| Terms.StructureEquals | src/jlogic/term/Structure.java:21-38 | between distinct references, a structure is equal to no object: the functor is compared with the whole other object |
| Terms.Equals | src/jlogic/term/Atom.java:16-26 | an atom, variable or `_` equals exactly a non-null term of the same kind and name; a structure equals nothing |
| Terms.HashCode | src/jlogic/term/Variable.java:28-31 | a variable's hash code is a signed 32-bit value |
| Terms.HashCodeConsistent | src/jlogic/term/Variable.java:16-31 | equal variables have equal hash codes |
| Terms.ToString | src/jlogic/term/Structure.java:40-56 | atoms and variables print as their names, `_` as `_`, and a structure as its functor, `(`, its arguments and `)` |
| Terms.JoinCons | src/jlogic/term/Structure.java:41-56 | a comma-joined list is its first element, a comma and the join of the rest |
| Terms.StructureToString | src/jlogic/term/Structure.java:41-56 | a structure prints as its functor, then `(`, the comma-separated printed arguments and `)` |
| Terms.ArgumentsTextIsJoin | src/jlogic/term/Structure.java:46-51 | the argument loop's text is the comma-join of the printed arguments |
| Terms.VarsOfListAppend | src/jlogic/interpret/Instantiator.java:47-54 | the variables of a concatenated goal list are the union of the parts' variables |
| Terms.VarsOfListCons | src/jlogic/interpret/Instantiator.java:47-54 | the variables of a goal list are those of its head and of its tail |
| Terms.VarsOfListElements | src/jlogic/interpret/Instantiator.java:47-54 | a variable occurs in a list exactly when it occurs in one of the elements |
| Frames.Frame.constructor | src/jlogic/interpret/Frame.java:17-19 | a new frame has no bindings |
| Frames.Frame.Copy | src/jlogic/interpret/Frame.java:21-23 | the copy holds the same bindings as the original |
| Frames.Frame.Instantiate | src/jlogic/interpret/Frame.java:25-27 | the variable is bound to the term afterwards, and every other binding, and whether it exists, is unchanged |
| Frames.Frame.HasInstantiation | src/jlogic/interpret/Frame.java:29-31 | true exactly when the variable is a key of the frame's map |
| Frames.Frame.GetInstantiation | src/jlogic/interpret/Frame.java:29-35 | the lookup is null exactly when `hasInstantiation` is false, and is otherwise the bound term |
| Frames.Frame.GetInstantiations | src/jlogic/interpret/SearchTree.java:77-78 | the map handed out holds exactly the bound variables, each with the term `getInstantiation` returns |
| InternalVariables.InternalName | src/jlogic/interpret/InternalVariableFactory.java:9-12 | `_G<n>` is an internal name and a valid variable name |
| InternalVariables.InternalNameInjective | src/jlogic/interpret/InternalVariableFactory.java:9-12 | different counter values give different internal names |
| InternalVariables.FirstInternalName | src/jlogic/interpret/InternalVariableFactory.java:7-12 | the first variable created is `_G0` |
| InternalVariables.InternalVariableFactory.constructor | src/jlogic/interpret/InternalVariableFactory.java:7 | the counter starts at zero |
| InternalVariables.InternalVariableFactory.Create | src/jlogic/interpret/InternalVariableFactory.java:9-12 | returns the variable named after the old counter and advances the counter by one |
| Matching.Unify | src/jlogic/interpret/Match.java:25-47 | a successful match only adds bindings to the frame it started from |
| Matching.UnifyAtoms | src/jlogic/interpret/Match.java:49-51 | two atoms match exactly when their names are equal, and the frame is unchanged |
| Matching.UnifyVariable | src/jlogic/interpret/Match.java:53-61 | an unbound variable is bound to the term; a success only adds bindings |
| Matching.UnifyStructures | src/jlogic/interpret/Match.java:63-82 | structures whose functor or arity differ never match; a success only adds bindings |
| Matching.UnifyArguments | src/jlogic/interpret/Match.java:69-81 | matching argument lists pairwise only adds bindings |
| Matching.Match | src/jlogic/interpret/Match.java:25-47 | returns a frame exactly when `Unify` succeeds, holding its bindings; the frame is the input or a fresh copy |
| Matching.MatchAtoms | src/jlogic/interpret/Match.java:49-51 | returns the input frame exactly when the names agree, and null otherwise |
| Matching.MatchVariable | src/jlogic/interpret/Match.java:53-61 | returns a frame exactly when `UnifyVariable` succeeds, holding its bindings |
| Matching.MatchStructures | src/jlogic/interpret/Match.java:63-82 | returns a fresh frame exactly when `UnifyStructures` succeeds, holding its bindings |
| Matching.MaxDepth | src/jlogic/interpret/Match.java:63-82 | bounds the depth of every argument |
| Matching.UnifySelf | src/jlogic/interpret/Match.java:25-47 | with enough fuel, a term matches itself without new bindings (even though structures are never `equals`) |
| Matching.UnifyArgumentsSelf | src/jlogic/interpret/Match.java:69-81 | an argument list matches itself without new bindings |
| Matching.UnifyFuelMonotone | src/jlogic/interpret/Match.java:25-47 | once matching finishes with some fuel, more fuel gives the same answer |
| Matching.UnifyVariableFuelMonotone | src/jlogic/interpret/Match.java:53-61 | the same for the variable case |
| Matching.UnifyStructuresFuelMonotone | src/jlogic/interpret/Match.java:63-82 | the same for the structure case |
| Matching.UnifyArgumentsFuelMonotone | src/jlogic/interpret/Match.java:69-81 | the same for argument lists |
| Matching.AnonymousNeverFails | src/jlogic/interpret/Match.java:29-44 | matching against `_` never fails, on either side |
| Matching.UnifyCases | src/jlogic/interpret/Match.java:25-67 | the dispatch of `match`: atoms compare by name; an atom never matches a structure; mismatched structures fail; a bound variable is replaced by its binding; an unbound one is bound; `_` matches any non-variable |
| Matching.UnifyVars | src/jlogic/interpret/Match.java:25-47 | a match mentions no variable beyond those of the old frame and of the two terms |
| Matching.CycleSpins | src/jlogic/interpret/Match.java:53-61 | with X bound to Y and Y bound to X, matching either of them with a third variable never finishes |
| Matching.SwappedSpins | src/jlogic/interpret/Match.java:25-82 | `g(f(Y,X), f(X,a))` against `g(f(X,Y), f(Z,b))` never finishes: the first pair binds Y to X and X to Y, and the second pair then chases that cycle |
| Matching.StraightFails | src/jlogic/interpret/Match.java:25-82 | `g(f(X,Y), f(Z,b))` against `g(f(Y,X), f(X,a))` fails within three steps: the bindings X to Y and Y to X are made, Z is bound without looking at them, and `b` against `a` fails |
| Matching.UnifyAsymmetric | src/jlogic/interpret/Match.java:25-82 | matching is not symmetric: one order fails with enough fuel, the swapped order never finishes |
| Matching.UnifyVariableVars | src/jlogic/interpret/Match.java:53-61 | the same for the variable case |
| Matching.UnifyStructuresVars | src/jlogic/interpret/Match.java:63-82 | the same for the structure case |
| Matching.UnifyArgumentsVars | src/jlogic/interpret/Match.java:69-81 | the same for argument lists |
| Instantiation.Instantiate | src/jlogic/interpret/Instantiator.java:20-45 | a bound variable becomes its binding; an unbound one stays; atoms and `_` are unchanged; a structure keeps its functor and arity, and each argument is the instantiated argument |
| Instantiation.InstantiateList | src/jlogic/interpret/Instantiator.java:47-54 | the list is instantiated element by element |
| Instantiation.InstantiateUnbound | src/jlogic/interpret/Instantiator.java:20-45 | a term none of whose variables is bound is unchanged |
| Instantiation.InstantiateListUnbound | src/jlogic/interpret/Instantiator.java:47-54 | the same for lists |
| Instantiation.InstantiateVars | src/jlogic/interpret/Instantiator.java:20-45 | the result mentions only the term's variables and those in the frame |
| Instantiation.InstantiateListVars | src/jlogic/interpret/Instantiator.java:47-54 | the same for lists |
| Instantiation.InstantiateKeeps | src/jlogic/interpret/Instantiator.java:20-45 | a property held by the unbound variables of a term and by the variables of the bindings it uses holds for every variable of the result |
| Instantiation.InstantiateListKeeps | src/jlogic/interpret/Instantiator.java:47-54 | the same for lists |
| Instantiation.OneLevel | src/jlogic/interpret/Instantiator.java:40-45 | a chain X→Y→a instantiates X to Y, not to a |
| Internalizing.Internalize | src/jlogic/interpret/FreeVariablesInternalizer.java:30-62 | the counter only grows, the frame only gains bindings, and structure shape is kept; atoms and `_` are unchanged |
| Internalizing.InternalizeList | src/jlogic/interpret/FreeVariablesInternalizer.java:64-71 | the same for lists, keeping the length |
| Internalizing.InternalizeSpec | src/jlogic/interpret/FreeVariablesInternalizer.java:30-62 | the frame gains exactly the term's external variables, each bound to a distinct fresh internal variable numbered between the old and new counter, and the result is the term under those bindings |
| Internalizing.InternalizeListSpec | src/jlogic/interpret/FreeVariablesInternalizer.java:64-71 | the same for lists |
| Internalizing.FreshCompose | src/jlogic/interpret/FreeVariablesInternalizer.java:51-62 | two renamings over adjacent counter ranges compose into one over the whole range |
| Internalizing.FreshAcrossRanges | src/jlogic/interpret/InternalVariableFactory.java:9-12 | variables generated in disjoint counter ranges are different |
| Internalizing.ExternalExtends | src/jlogic/interpret/FreeVariablesInternalizer.java:51-62 | adding external bindings extends the external part of the frame |
| Internalizing.InstantiateAgrees | src/jlogic/interpret/Instantiator.java:40-45 | a larger frame instantiates a term the same way when it binds none of the term's variables that the smaller frame leaves free |
| Internalizing.FreeVariablesInternalizer.constructor | src/jlogic/interpret/FreeVariablesInternalizer.java:23-28 | keeps the factory and the frame it will update |
| Internalizing.FreeVariablesInternalizer.Visit | src/jlogic/interpret/FreeVariablesInternalizer.java:30-62 | the result, the new frame and the new counter are those of `Internalize` on the old state |
| Internalizing.FreeVariablesInternalizer.VisitList | src/jlogic/interpret/FreeVariablesInternalizer.java:64-71 | the same for lists |
| Rules.IsFact | src/jlogic/Rule.java:23-25 | a rule is a fact exactly when it has no body; an empty body is not a fact |
| Rules.NewRule | src/jlogic/Rule.java:11-17 | a rule is built exactly when the head is not null; it is a fact exactly when it has no body; a null head raises "head must not be null" |
| Rules.NewFact | src/jlogic/Rule.java:19-25 | a fact is built exactly when the head is not null, and it is a fact |
| Predicates.IsUniformFullName | src/jlogic/Predicate.java:38-47 | true exactly when every clause has the full name of the first |
| Predicates.NewPredicate | src/jlogic/Predicate.java:9-20 | a predicate is built exactly when there is at least one clause and all share one full name; each failure has its message |
| Predicates.ClausesAgree | src/jlogic/Predicate.java:9-20 | every clause of a predicate has the predicate's name and arity |
| KnowledgeBase.RulesNamed | src/jlogic/Knowledge.java:40-55 | a group holds only rules of the requested full name |
| KnowledgeBase.RulesNamedMembers | src/jlogic/Knowledge.java:40-55 | a rule is in a group exactly when it is a rule of that full name, and a group is non-empty exactly for full names that occur |
| KnowledgeBase.GroupIsUniform | src/jlogic/Knowledge.java:10-17 | each group is a valid predicate's clause list |
| KnowledgeBase.GroupRules | src/jlogic/Knowledge.java:40-55 | the keys are the full names that occur, and each maps to its rules in order |
| KnowledgeBase.Knowledge.constructor | src/jlogic/Knowledge.java:10-17 | keeps the rules and builds one predicate per full name |
| KnowledgeBase.Knowledge.GetPredicate | src/jlogic/Knowledge.java:32-34 | null exactly when no rule has that full name, and otherwise the predicate of exactly those rules |
| KnowledgeBase.Knowledge.GetPredicateByArity | src/jlogic/Knowledge.java:36-38 | for a non-negative arity, the lookup of the full name `name/arity` |
| KnowledgeBase.NegativeArityNamesNothing | src/jlogic/Knowledge.java:36-38 | the key built from a negative arity carries a `-` and is the full name of no structure |
| KnowledgeBase.GetPredicateByArityFinds | src/jlogic/Knowledge.java:36-38 | finds a predicate of that name and arity exactly when some rule head has them; a negative arity finds nothing |
| Resolution.GetTerms | src/jlogic/interpret/SearchTree.java:102-112 | a fact contributes no goals, and a rule contributes its body |
| Resolution.GoalPredicate | src/jlogic/interpret/SearchTree.java:114-121 | a non-structure goal raises an AssertionError carrying its text; otherwise the predicate of its full name, which is absent exactly when no rule has that name |
| Resolution.NodePredicate | src/jlogic/interpret/SearchTree.java:157-165 | no goals means no predicate; otherwise it is that of the leading goal |
| Resolution.TryClause | src/jlogic/interpret/SearchTree.java:192-233 | trying a clause only advances the counter, and a resolved frame extends the node's frame |
| Resolution.TryClauses | src/jlogic/interpret/SearchTree.java:190-237 | the chosen or stuck clause index is at or after the starting clause, and the chosen frame extends the node's frame |
| Resolution.CounterBefore | src/jlogic/interpret/SearchTree.java:190-237 | the counter only grows as the loop moves from clause to clause |
| Resolution.TryClausesFirst | src/jlogic/interpret/SearchTree.java:190-237 | clauses are tried in declaration order: the chosen clause is the first whose attempt resolves, every earlier one was rejected, and the choice is that clause's attempt; exhausting the node means every clause was rejected |
| Resolution.RenameHead | src/jlogic/interpret/SearchTree.java:197-204 | renaming a clause of program variables against a frame of internal variables gives a head of fresh internal variables only, and a body of fresh internal and program variables only |
| Resolution.RenameBody | src/jlogic/interpret/SearchTree.java:220-222 | renaming the body against the match frame leaves only internal variables below the new counter |
| Resolution.TryClauseRenamesApart | src/jlogic/interpret/SearchTree.java:192-233 | if the clause has program variables only and the node mentions only internal variables handed out before the counter, then so do the child frame and goals under the new counter: each renamed clause is apart from the node |
| Resolution.TryClausesRenamesApart | src/jlogic/interpret/SearchTree.java:190-237 | the same for the clause the whole loop chooses |
| Resolution.GoalClausesExternalOnly | src/jlogic/Knowledge.java:32-34 | when every rule has program variables only, so does every clause a goal is resolved against |
| Resolution.AttemptClause | src/jlogic/interpret/SearchNode.java:112-152 | the factory counter, the match frame (fresh) and the child goals are those of `TryClause` |
| Resolution.FindClause | src/jlogic/interpret/SearchNode.java:110-156 | the loop ends at the clause `TryClauses` chooses, with its fresh frame and goals, or past the last clause, or where the unifier ran out of fuel |
| SearchTrees.NewNode | src/jlogic/interpret/SearchTree.java:157-165 | the node keeps parent, frame and goals, starts at clause 0 with no children, and takes the leading goal's predicate; a non-structure goal raises an AssertionError |
| SearchTrees.ReplaceNode | src/jlogic/interpret/SearchTree.java:191-193 | advancing a node's clause index keeps the tree well linked |
| SearchTrees.AddChild | src/jlogic/interpret/SearchTree.java:227-228 | adding a new child in front of a node's children keeps the tree well linked |
| SearchTrees.RootRenamedApart | src/jlogic/interpret/SearchTree.java:48-55 | renaming a query of program variables gives a root node whose goal mentions only internal variables below the factory counter, with an empty frame |
| SearchTrees.SearchTree.constructor | src/jlogic/interpret/SearchTree.java:44-56 | the query is renamed apart into the query frame, and the tree is one root node with the renamed query as its goal and control on it |
| SearchTrees.SearchTree.StepCurrent | src/jlogic/interpret/SearchTree.java:171-238 | an empty goal list yields its frame as the result and returns control to the parent; an exhausted or unknown predicate backtracks; otherwise the node follows `TryClauses` |
| SearchTrees.SearchTree.Expand | src/jlogic/interpret/SearchTree.java:190-237 | the node's clause index, the new child and the control follow the `TryClauses` choice; the child's frame is a fresh object holding the choice's match bindings, and a child whose leading goal is not a structure raises the AssertionError instead |
| SearchTrees.SearchTree.SetClause | src/jlogic/interpret/SearchTree.java:193 | updates one node's clause index and nothing else |
| SearchTrees.SearchTree.AppendChild | src/jlogic/interpret/SearchTree.java:193-231 | moves the parent's clause index past the resolving clause, adds the child at the end of the list, puts it in front of the parent's children and gives it control |
| SearchTrees.ExpandedKeeps | src/jlogic/interpret/SearchTree.java:190-236 | an expansion never changes the goals, frame or parent of a node that existed before it and never removes a node |
| SearchTrees.SearchTree.CreateResultFrame | src/jlogic/interpret/SearchTree.java:73-86 | binds each query variable to the instantiated binding of its internal variable, and raises a NullPointerException when one is unbound |
| SearchTrees.SearchTree.SearchOne | src/jlogic/interpret/SearchTree.java:58-67 | runs steps until a result or the end of the search; a found frame covers exactly the query variables and comes from a node with no goals left |
| SearchNodes.SearchNode.constructor | src/jlogic/interpret/SearchNode.java:59-71 | keeps its arguments, starts at clause 0 with no children and takes the leading goal's predicate |
| SearchNodes.SearchNode.Build | src/jlogic/interpret/SearchNode.java:38-44 | construction fails with an AssertionError exactly when the leading goal is not a structure |
| SearchNodes.SearchNode.GetFrame | src/jlogic/interpret/SearchNode.java:85-90 | returns a fresh copy of the node's frame |
| SearchNodes.SearchNode.SearchOne | src/jlogic/interpret/SearchNode.java:96-157 | no goals returns the frame and the parent; an exhausted or unknown predicate yields to the parent; otherwise the clause index and the appended child follow `TryClauses` |
| SearchNodes.SearchNode.Expand | src/jlogic/interpret/SearchNode.java:110-156 | the do-while loop's outcome is the `TryClauses` choice |
| Lexing.SimpleTokenType | src/jlogic/read/Lexer.java:16-26 | exactly the characters `()_,:-.` are one-character tokens, none of them an identifier or end of file |
| Lexing.TypeName | src/jlogic/read/TokenType.java:3-14 | a token type prints as its enum constant's name, non-empty and capitalised |
| Lexing.Start | src/jlogic/read/Lexer.java:28-36 | the cursor starts at the first character, line 0, column 0 |
| Lexing.Advanced | src/jlogic/read/Lexer.java:64-74 | the column always advances, and the position advances unless the end was reached |
| Lexing.AfterWhitespace | src/jlogic/read/Lexer.java:94-104 | skips exactly a run of whitespace, counting lines by newlines and columns within a line |
| Lexing.CommentEnd | src/jlogic/read/Lexer.java:106-112 | stops at the first newline or the end, on the same line |
| Lexing.AfterComment | src/jlogic/read/Lexer.java:106-112 | a comment not at the end always consumes input |
| Lexing.AfterComments | src/jlogic/read/Lexer.java:48-49 | after the comment loop the cursor is on `%` only at the end of the text |
| Lexing.IdentifierAt | src/jlogic/read/Lexer.java:80-92 | reads the longest run of letters, digits and `_`, on the same line |
| Lexing.NextToken | src/jlogic/read/Lexer.java:42-62 | at the end every read yields end of file and nothing moves; otherwise a token consumes input and is not end of file |
| Lexing.ReadAtEnd | src/jlogic/read/Lexer.java:42-62 | reading at the end yields the end-of-file token, again and again |
| Lexing.ReadIdentifierToken | src/jlogic/read/Lexer.java:51-52 | a letter starts an identifier token spanning the maximal identifier characters, located at its first character |
| Lexing.ReadSingleLetter | src/jlogic/read/Lexer.java:51-52 | a letter followed by a non-identifier character is a one-letter identifier |
| Lexing.ReadSimpleToken | src/jlogic/read/Lexer.java:54-59 | a punctuation character is its own token |
| Lexing.ReadUnknownCharacter | src/jlogic/read/Lexer.java:61 | any other character raises "Unknown character: " with it |
| Lexing.TrailingWhitespaceIsUnknown | src/jlogic/read/Lexer.java:42-62 | trailing whitespace ends in an "Unknown character" error on the stale last character |
| Lexing.HangsOnlyOnTrailingPercent | src/jlogic/read/Lexer.java:46-49 | the reader can only hang when the text ends in `%` |
| Lexing.CommentAtEndIsFixedPoint | src/jlogic/read/Lexer.java:106-112 | at the end on a `%`, skipping a comment changes nothing |
| Lexing.LonePercentHangs | src/jlogic/read/Lexer.java:46-49 | the text `%` makes the reader hang |
| Lexing.Lexer.constructor | src/jlogic/read/Lexer.java:28-36 | the cursor is in the start state |
| Lexing.Lexer.Advance | src/jlogic/read/Lexer.java:64-74 | the new cursor is `Advanced` of the old |
| Lexing.Lexer.SkipWhitespace | src/jlogic/read/Lexer.java:94-104 | the new cursor is `AfterWhitespace` of the old |
| Lexing.Lexer.SkipComment | src/jlogic/read/Lexer.java:106-112 | the new cursor is `AfterComment` of the old |
| Lexing.Lexer.ReadIdentifier | src/jlogic/read/Lexer.java:80-92 | returns the identifier `IdentifierAt` reads, located at its start |
| Lexing.Lexer.Read | src/jlogic/read/Lexer.java:42-62 | the token or error and the new cursor are `NextToken` of the old cursor |
| Parsing.Step | src/jlogic/read/Parser.java:133-135 | reading a token makes progress unless the current one is end of file |
| Parsing.CheckedAdvance | src/jlogic/read/Parser.java:137-143 | the wrong token raises "Expected X, got Y" and moves nothing |
| Parsing.ExpectNext | src/jlogic/read/Parser.java:145-151 | on success the new current token has the wanted type |
| Parsing.OptionalComma | src/jlogic/read/Parser.java:64-65 | never goes backwards |
| Parsing.AtomAt | src/jlogic/read/Parser.java:75-81 | an identifier becomes an atom of its text; anything else raises "Expected Identifier, got ..." |
| Parsing.TermAt | src/jlogic/read/Parser.java:25-49 | a parsed term consumes input, and its variables are named with an upper-case letter |
| Parsing.ArgumentsAt | src/jlogic/read/Parser.java:51-73 | parsed arguments consume input and their variables are upper-case named |
| Parsing.ArgumentsFrom | src/jlogic/read/Parser.java:58-72 | the loop only appends to the arguments read so far |
| Parsing.StructureAt | src/jlogic/read/Parser.java:83-89 | succeeds exactly when the term read is a structure, and raises "Expected structure" otherwise |
| Parsing.RuleAt | src/jlogic/read/Parser.java:91-121 | a parsed rule consumes input and all its variables are upper-case named |
| Parsing.BodyFrom | src/jlogic/read/Parser.java:100-115 | the body loop keeps the head and only appends goals |
| Parsing.RulesFrom | src/jlogic/read/Parser.java:123-131 | rules are read until the current token is not an identifier, only appending |
| Parsing.TermByToken | src/jlogic/read/Parser.java:25-49 | an upper-case identifier is a variable; another identifier is an atom or, before `(`, a structure; `_` is the anonymous variable; an empty identifier fails on its first character; anything else raises "Expected term" |
| Parsing.NamedByParserVars | src/jlogic/read/Parser.java:28-32 | the variables of a parsed term start with an upper-case letter, so none is internal |
| Parsing.ParsedRulesHaveNoInternalVariables | src/jlogic/read/Parser.java:123-131 | a parsed program never mentions an internal `_G` variable |
| Parsing.EmptyArgumentList | src/jlogic/read/Parser.java:51-73 | `()` gives no arguments |
| Parsing.TrailingCommaAccepted | src/jlogic/read/Parser.java:58-67 | a comma before `)` is accepted |
| Parsing.MissingCommaAccepted | src/jlogic/read/Parser.java:58-67 | an argument not followed by a comma is accepted, and the loop goes on to the next argument |
| Parsing.MissingCommaInBody | src/jlogic/read/Parser.java:100-110 | the same for the goals of a rule body |
| Parsing.EndOfFileInArguments | src/jlogic/read/Parser.java:58-61 | end of file in an argument list raises "Unexpected end of file in parameter list" |
| Parsing.FactOrRule | src/jlogic/read/Parser.java:91-121 | a rule's head is the parsed structure, and it is a fact exactly when no `:` follows the head |
| Parsing.ColonNeedsHyphen | src/jlogic/read/Parser.java:94-95 | `:` not followed by `-` raises "Expected Hyphen, got ..." |
| Parsing.EmptyBodyAccepted | src/jlogic/read/Parser.java:94-115 | `head :- .` parses as a rule with an empty body, not a fact |
| Parsing.Parser.Open | src/jlogic/read/Parser.java:19-23 | reads the first token, failing exactly as the lexer does |
| Parsing.Parser.Advance | src/jlogic/read/Parser.java:133-135 | follows `Step` |
| Parsing.Parser.CheckAdvance | src/jlogic/read/Parser.java:137-143 | follows `CheckedAdvance` |
| Parsing.Parser.AdvanceExpect | src/jlogic/read/Parser.java:145-151 | follows `ExpectNext` |
| Parsing.Parser.ParseAtom | src/jlogic/read/Parser.java:75-81 | follows `AtomAt` |
| Parsing.Parser.ParseTerm | src/jlogic/read/Parser.java:25-49 | follows `TermAt` |
| Parsing.Parser.ParseArguments | src/jlogic/read/Parser.java:51-73 | follows `ArgumentsAt` |
| Parsing.Parser.ParseStructure | src/jlogic/read/Parser.java:83-89 | follows `StructureAt` |
| Parsing.Parser.ParseRule | src/jlogic/read/Parser.java:91-121 | follows `RuleAt` |
| Parsing.Parser.ParseKnowledge | src/jlogic/read/Parser.java:123-131 | builds a valid knowledge base of exactly the rules `RulesFrom` reads, or fails as it does |

## Left out

- DOT export is not modelled: `toDOT`, `frameDeltaToParent`, `filterFrameDelta` and the id counter (src/jlogic/interpret/SearchTree.java:88-99, 240-369). It only renders the tree as text.
- The REPL and `Main` are not modelled. They are console I/O around the parser and the search.
- `Knowledge.toString`, `Frame.toString`, and `Token`/`Location` `toString` are not modelled. They are display only.
- The older `jlogic.Structure`, `jlogic.Variable`, `jlogic.Frame`, `jlogic.Atom` and `jlogic.Matcher` classes are not modelled. They are an earlier copy of the term model that the core does not use.
- Plain getters are fields of the model, not members:
  - `getParent`, `getChildren`, `getGoals`;
  - `Lexer.getFile`;
  - the getters of `Rule`, `Predicate` and `Structure`.
- Character classes are ASCII only. `Character.isLetter`, `isUpperCase`, `isDigit` and `isWhitespace` are Unicode-aware in Java.
- The `Reader` I/O of the lexer is not modelled: the program text is a string given up front, and `IOException` cannot occur.
- The internal-variable counter and `String.hashCode` use `int` arithmetic. `Text.JavaHash` wraps it; the counter is a `nat` and its overflow after 2^31 variables is not modelled.
- Matching.Unify: takes `fuel`, and reports running out instead of recursing without bound through cyclic bindings. Where the source would overflow its stack the model reports `OutOfFuel`.
- SearchTrees.SearchTree.SearchOne: takes a step budget; the source loops until a result or the end of the search.
- Lexing.NextToken: reports `Hangs` for text ending in `%`, where the source spins forever.
- A null rule array given to `Knowledge`, or a null element in it, is not modelled. A null element fails the assertion at src/jlogic/Knowledge.java:44, or with assertions off raises a NullPointerException at line 46. The parser never passes either.
- The `assert false` before the thrown AssertionError in `getPredicate` is not modelled (src/jlogic/interpret/SearchTree.java:119). With assertions disabled, which is the Java default, the same AssertionError is thrown anyway.
- Resolution.FindClause: writes the clause index back once after the loop, where the source increments the field each iteration. Nothing reads it in between.
- Terms.StructureEquals: the identity test that comes first (src/jlogic/term/Structure.java:19-20) is not modelled, since terms are values without references. A structure compared with itself is equal in the source. By `Matching.UnifySelf` the outcome of matching does not depend on it, given enough fuel.
- Terms.NewStructure: requires the functor to be an atom. This is the Java parameter type `Atom`.

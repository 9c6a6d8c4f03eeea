# strictcli: verified models of the core algorithms

strictcli is a declarative command-line framework. This project models the algorithms inside its
Go implementation and proves what each of them is for. A loop or an object of the original is a
method or a class here, proved against a specification function or a declarative predicate; the
results about it are lemmas over every input, every run or every order.

`dafny verify dfyconfig.toml` checks everything.

| files | what they model |
|---|---|
| `Graphs`, `CheckOrder`, `CheckRunner`, `CheckMeaning`, `CheckValues`, `CheckSelection` | the check scheduler: pull-in of dependencies, the least dependency order, the cascade, the purity partition, what becomes of each check, per-check values, and a selection run through |
| `Constraints`, `ConstraintCycles`, `ConstraintInput`, `ConstraintEval`, `ConstraintSources` | nested at-least-one and all-or-none rules: cycle check, provided arguments, memoised evaluation, and which values engage a member |
| `ConstraintProjection`, `ConstraintVerdicts`, `ConstraintSoundness`, `ConstraintRefusals`, `ConstraintDoors` | their projection to JSON Schema keywords: when it is exact, when it refuses no legal call, which sets have a legal call it refuses, and the two doors of one call |
| `Effects`, `EffectsHandle`, `EffectsMeaning`, `EffectsSafety`, `EffectsPreview` | the effects regime: what a call does to a dispatch, the eight methods, the action, record, result and refusal of every call, safety over every run, and preview fidelity |
| `TagDsl`, `TagReading`, `TagGrammar`, `TagMeaning`, `TagPrinting` | the tag expression language: tokenizer, five-level parser, the tokens of a text, grammar, what a text says of the tags, printing |
| `Numbers`, `NumberValues`, `JsonText`, `JsonLayout`, `JsonRoundTrip`, `SchemaJson`, `CanonicalWriter`, `McpDigest` | the canonical float form and the values behind it, the ordered schema object, the two canonical JSON printers, and what a digest determines |
| `Utf8`, `Output`, `Utf8Subparts` | chunked UTF-8 decoding against the byte-at-a-time decoder of the Encoding Standard (section 8.1.1), and that decoder against the replacement of maximal subparts |
| `PayloadSchema`, `PayloadValidator`, `PayloadMeaning`, `PayloadFindings`, `PayloadOrder` | the payload schema's registration check and validator, their meaning, the positions they report, and which of several violations they report |
| `McpBase64`, `McpContinuation`, `McpConfirmation` | canonical base64url, single-use continuation blobs with pruning, the two confirmation exchanges and the line channel |
| `ArgvTokens`, `ArgvRoundTrip`, `ArgvTables`, `ArgvMeaning` | phase 1 of parsing a command line, its long form, the lookup tables as declarations build them, and what each spelling says |
| `NestedConfig`, `NestedConfigObjects` | dotted paths into nested configuration maps, as tree laws and on map objects changed in place |
| `Names` | name order, sorting, trimming, joining |

How the models are set up:

- A check's implementation is a function from its name to an outcome or an abort. A range over a Go
  map is a choice of any remaining key, so every result holds for every iteration order.
- `Effects.Perform` says what one effects-handle call does to the state of a dispatch. The eight
  methods follow the original statement by statement and are proved to do exactly that, so the lemmas
  about runs of `Perform` are about them. The world is an opaque function from the history of actions
  and the next action to an answer.
- A preview compares two runs of one straight-line handler. A detail is a shape with holes; the
  dry log fills the holes with brands where the live log fills them with what the forwarded results
  delivered.
- A finite float is its shortest decimal, the digits `strconv` picks; the canonical form and its reading
  back are stated over all of them.
- The continuation runs take a nondecreasing clock, fresh ids and an ideal MAC as their assumptions
  (`McpContinuation.Admissible`).
- `NestedConfigObjects` describes linked map objects by a layout; `Value` is the tree they hold.

Where the code and its comments disagree, the code is modelled:

- A nested all-or-none is called exact as one branch of all its leaves. Above an at-least-one it demands
  leaves the rule does not; `ConstraintSoundness.Delivers` says where that matters
  (`ConstraintRefusals.DeliversIff`), and `ConstraintRefusals.SandwichRefusesLegal` is the smallest set.
- A value an implication turned on has no key, so exact keywords judge what the caller sent
  (`ConstraintRefusals.HandProjection`, `ConstraintRefusals.ImpliesRefusesLegal`).
- The reservation of minted clear names says it covers the whole namespace the tokenizer reads; it covers
  the clears of properties only, and a nullable flag inside a choice mints a clear too
  (`ArgvTables.ClearClash`). Nor is a flag inside a choice compared with the global flags
  (`ArgvTables.LevelClash`). And the guards see only the globals registered before the command, while
  parsing reads them all: a later one may take a root flag's name or a root property's clear
  (`ArgvTables.LateLevelClash`, `ArgvTables.LateClearClash`). `ArgvTables.DeclaredRoundTrip` has the exact
  condition for every case.
- `collectNestedKeys` describes itself as flattening to dot-separated paths; beneath an empty key at
  the top it drops that key (`NestedConfig.CollectsExactlyWhen`, `NestedConfig.EmptyTopKeyDropped`).
- The settling backstop calls itself fail-closed; it covers paths and argv, and not a write's content
  (`EffectsSafety.BackstopCovers`).

## Model

| member | source | states |
|---|---|---|
| `CheckOrder.Expand` | go/strictcli/check_runner.go:50-70 | the recursive pull-in: either every check it adds is reachable and joins an order with dependencies first, or it names a check that is on a reachable dependency cycle |
| `CheckOrder.ExpandAll` | go/strictcli/check_runner.go:49-78 | the pulled-in checks are exactly the transitive closure of the selection; a refusal names a pulled-in check on a cycle |
| `CheckOrder.CountDegrees` | go/strictcli/check_runner.go:80-95 | in-degrees count every dependency and the reverse adjacency inverts the dependency lists with multiplicity |
| `CheckOrder.Release` | go/strictcli/check_runner.go:112-124 | placing a check leaves in-degrees that count the unplaced dependencies and a sorted queue of exactly the ready checks |
| `CheckOrder.Kahn` | go/strictcli/check_runner.go:97-132 | always placing the head of the sorted queue gives a greedy order of all pulled-in checks; the shortfall branch has no run that reaches it |
| `CheckOrder.ResolveCheckOrder` | go/strictcli/check_runner.go:45-135 | fails exactly when the selection pulls in a cycle, and then names a check on one; otherwise returns the least dependency order of exactly the closure, each check once |
| `CheckOrder.GreedyIsLeast` | go/strictcli/check_runner.go:97-132 | where any other dependency order first departs from the greedy one, its name there is larger |
| `CheckOrder.LeastOrderUnique` | go/strictcli/check_runner.go:45-135 | only one order qualifies, so neither map iteration order nor selection order shows |
| `Names.LessMeans` | go/strictcli/check_runner.go:97-124 | names sort by the first character in which they part, a beginning before what goes on |
| `CheckRunner.Decide` | go/strictcli/check_runner.go:306-362 | one turn of the loop settles the check by the cascade, purity and value rules, or finds an executed check that returned no minted outcome |
| `CheckRunner.RunChecks` | go/strictcli/check_runner.go:286-384 | over any dependency-respecting order the report is that of a solution of the cascade and listing equations, whose fates the CheckMeaning rows read off the implementations; it panics only when they have no solution |
| `CheckRunner.SolutionsAgree` | go/strictcli/check_runner.go:306-380 | the equations over the dependency graph have at most one solution |
| `CheckRunner.NoSolution` | go/strictcli/check_runner.go:364-372 | an executed check without a minted outcome leaves the equations unsolvable |
| `CheckRunner.OrderIndependent` | go/strictcli/check_runner.go:286-384 | two dependency-respecting orders of the same checks give the same fates, rows, listing and exit code |
| `CheckRunner.LandsOnce` | go/strictcli/check_runner.go:286-384 | each check lands once: in one row or once in the listing |
| `CheckRunner.MintAsWarnings` | go/strictcli/check_values.go:92-102 | every problem of a found outcome becomes a warning and nothing else changes |
| `CheckRunner.AsWarningsStatus` | go/strictcli/check_values.go:92-102 | demotion turns a found outcome into a warning status and changes no other status |
| `CheckRunner.LoweringNeverFailsMore` | go/strictcli/check_values.go:92-102 | lowering values from error to warn never adds a failed check, with or without the purity partition |
| `CheckMeaning.StatusMeans` | go/strictcli/check_runner.go:239-265 | an executed check fails exactly when its implementation broke, whatever its value, or found an error and is not at warn; it warns exactly when it found something else; passed and skipped stay what they are |
| `CheckMeaning.ProblemsMean` | go/strictcli/check_runner.go:244-260 | a broken check's row carries the abort text as one error; a finding keeps its texts in order, and its severities unless it is at warn |
| `CheckMeaning.FateMeans` | go/strictcli/check_runner.go:306-350 | a check is off exactly by its value; otherwise skipped exactly when a dependency was skipped or ran and blocks; otherwise listed exactly when only pure checks run and it is withheld; otherwise executed |
| `CheckMeaning.SkipNamesFirst` | go/strictcli/check_runner.go:316-334 | a skipped check names the first dependency, in declaration order, that holds it back |
| `CheckMeaning.RowsMean` | go/strictcli/check_runner.go:308-334 | each row stands for a check of the order: off with its source, skipped with the dependency it names, or what it returned |
| `CheckMeaning.ExitMeans` | go/strictcli/check_runner.go:373-383 | exit 1 exactly when a check was skipped for a dependency, or ran and broke or found anything |
| `CheckMeaning.AbortBlocks` | go/strictcli/check_runner.go:239-334 | a broken check fails at every value, every check that depends on it is skipped unless it is off, and the run exits 1 |
| `CheckValues.ResolveCheckValues` | go/strictcli/check_values.go:48-75 | every named check gets its own resolution, or the first refusal in order is reported |
| `CheckValues.ResolveMeans` | go/strictcli/check_values.go:48-75 | what each of the three words resolves to, and the refusals in order: another word, a source of white space, error for a check registered at warn |
| `CheckValues.ResolvedNeverFailsMore` | go/strictcli/check_values.go:48-75 | resolved values that turn nothing off fail no check that the registered severities would not |
| `CheckSelection.RunSelected` | go/strictcli/check_public.go:50-72 | a selection is answered by a check on a cycle exactly when it pulls one in, and otherwise by the first refused value or by running the least order under the resolved values |
| `CheckSelection.SelectionDecides` | go/strictcli/check_public.go:50-72 | a selection that pulls in no cycle has one answer, whatever the order of the maps: rows, listing and exit code, or the refusal, or the panic |
| `ConstraintCycles.CyclePath` | go/strictcli/constraints.go:505-530 | the reported path is a closed walk along references that meets each participant once and opens at the one declared first |
| `ConstraintCycles.Walk` | go/strictcli/constraints.go:498-537 | the three-colour walk either finishes every node under its start or reports such a path |
| `ConstraintCycles.CheckConstraintCycles` | go/strictcli/constraints.go:489-543 | silent exactly when the reference graph is acyclic; silence gives the finishing order every later recursion descends |
| `ConstraintCycles.FinishesAcyclic` | go/strictcli/constraints.go:489-543 | a set with a finishing order has no cycle |
| `Constraints.NestedRanksBelow` | go/strictcli/constraints.go:554-568 | after a silent cycle check a nested constraint ranks strictly below its parent |
| `ConstraintInput.NewArgInput` | go/strictcli/constraints.go:592-630 | an argument is provided, and with what, exactly as its door says: a variadic one only with at least one element |
| `ConstraintInput.EveryTokenTaken` | go/strictcli/constraints.go:613-628 | positionals are taken in order, each once; all of them exactly when there are no more tokens than arguments or one argument is variadic |
| `ConstraintInput.TypedProvision` | go/strictcli/constraints.go:592-611 | at a machine door an argument is provided exactly when the call gives it a value, an empty list for a variadic one aside, and with that value |
| `ConstraintInput.TokenProvision` | go/strictcli/constraints.go:612-630 | on the command line an argument gets the token in its place and a variadic one all that are left, in order |
| `ConstraintSources.FlagEngages` | go/strictcli/constraints.go:707-757 | a flag that is no selector engages exactly when its value came from the command line, the environment, a configuration file or an implication and meets its election |
| `ConstraintSources.ArgEngages` | go/strictcli/constraints.go:738-744 | an argument engages exactly when it is provided with a value that meets its election |
| `ConstraintSources.SelectorEngages` | go/strictcli/constraints.go:745-757 | a selector engages exactly when the invocation elected it and presence is asked for |
| `ConstraintSources.RequiresReads` | go/strictcli/parse.go:113-134 | Requires is broken exactly by a flag supplied from one of the four sources whose need is not |
| `ConstraintSources.DeclineReads` | go/strictcli/constraints.go:780-794 | a member counts as declined exactly when it asks for true and is supplied as false |
| `ConstraintSources.SourcesAlike` | go/strictcli/parse.go:113-134 | exchanging one supplying source for another leaves the report of evaluation as it is, and an invocation has one report |
| `ConstraintEval.DeclineClause` | go/strictcli/constraints.go:780-794 | names the first bool member provided as false, and nothing otherwise |
| `ConstraintEval.Evaluation.MemberIsEngaged` | go/strictcli/constraints.go:707-736 | reads the plain meaning of engagement off the memo; the recomputing fallback is never taken |
| `ConstraintEval.Evaluation.CheckMembers` | go/strictcli/constraints.go:676-690 | counts the engaged members, or reports the first violation nested beneath one of them |
| `ConstraintEval.Evaluation.Check` | go/strictcli/constraints.go:676-704 | post-order evaluation: nothing exactly when nothing at or beneath the constraint is violated, the memo staying equal to the recursive definition |
| `ConstraintEval.CountMeaning` | go/strictcli/constraints.go:688-703 | the verdict read off the count is the family's meaning |
| `ConstraintEval.EvaluateConstraints` | go/strictcli/constraints.go:654-673 | empty exactly when every at-least-one, all-or-none and Requires holds under the plain recursive definition |
| `ConstraintEval.ViolatedMeans` | go/strictcli/constraints.go:676-704 | silence covers everything nested; a reported constraint is violated with everything beneath it satisfied |
| `ConstraintEval.RefusedMeans` | go/strictcli/constraints.go:654-673 | the same over the whole declaration order |
| `ConstraintProjection.AddDependent` | go/strictcli/constraints.go:980-999 | merging a dependent list means the conjunction of both |
| `ConstraintProjection.AddAllOrNone` | go/strictcli/constraints.go:1020-1029 | the all-or-none keywords accept exactly the key sets with all or none of the properties |
| `ConstraintProjection.ProjectConstraints` | go/strictcli/constraints.go:965-1057 | the emitted anyOf, allOf and dependentRequired accept a key set exactly when every constraint's key rule does |
| `ConstraintProjection.AllOrNoneExact` | go/strictcli/constraints.go:1011-1031 | an exact all-or-none key rule is the constraint itself |
| `ConstraintProjection.AnyOfExact` | go/strictcli/constraints.go:916-931 | an at-least-one's branches accept exactly the engaging key sets once the groups beneath it hold |
| `ConstraintProjection.ExactProjection` | go/strictcli/constraints.go:901-1057 | with every verdict exact and keys standing for provided members, the keywords accept a key set exactly when evaluation accepts it |
| `ConstraintProjection.ParamsApart` | go/strictcli/strictcli.go:4670-4672 | at a machine door flag names show underscores for hyphens and stay apart |
| `ConstraintProjection.PropertyMeans` | go/strictcli/constraints.go:890-897 | a flag's property is its underscored name, an argument's its own |
| `ConstraintVerdicts.VerdictMeans` | go/strictcli/constraints.go:934-1057 | a group is exact exactly when its members are flags and arguments asked for presence only, and gives nesting as its reason before elections; an at-least-one exactly when everything beneath it is; a requirement always and an implication never |
| `ConstraintSoundness.DeliveredSound` | go/strictcli/constraints.go:916-931 | the branches of an at-least-one that delivers accept the keys of every legal call, whatever the elections beneath it |
| `ConstraintSoundness.SoundProjection` | go/strictcli/constraints.go:901-1057 | partial verdicts included, no legal call is refused where every at-least-one delivers: a nested at-least-one does, or there is none and every nested group holds groups only |
| `ConstraintSoundness.UnsandwichedDelivers` | go/strictcli/constraints.go:916-931 | without an at-least-one beneath an all-or-none beneath an at-least-one, every at-least-one delivers |
| `ConstraintRefusals.CallLegal` | go/strictcli/constraints.go:654-743 | in a forest of at-least-one and all-or-none rules, whatever elects their members, the sparse call, first members only and whole groups, is legal where the values given suit the elections, and its keys stand for what it provides |
| `ConstraintRefusals.DeliversIff` | go/strictcli/constraints.go:901-931 | in such a forest an at-least-one delivers exactly when its keywords refuse no legal call, and no legal call among those giving any chosen suiting values |
| `ConstraintRefusals.AllDeliverIff` | go/strictcli/constraints.go:965-1057 | and the whole schema refuses no legal call, or none giving those values, exactly when every at-least-one delivers |
| `ConstraintRefusals.SandwichRefusesLegal` | go/strictcli/constraints.go:916-931 | at least one of (aa with at least one of bb, cc) or xx does not deliver: the legal call of aa and bb is refused |
| `ConstraintRefusals.SandwichDelivers` | go/strictcli/constraints.go:916-931 | beside another nested at-least-one the same group does no harm |
| `ConstraintRefusals.HandProjection` | go/strictcli/constraints.go:965-1057 | with exact rules beside any implications, the keywords accept the keys of what the caller sent exactly when that alone is legal |
| `ConstraintRefusals.GroupByHand` | go/strictcli/constraints.go:1011-1031 | in a legal call an exact all-or-none keyword accepts exactly when the provided leaves are all implied or none is |
| `ConstraintRefusals.RequiresByHand` | go/strictcli/constraints.go:965-1057 | in a legal call a Requires keyword refuses exactly when the flag came by hand and the one it needs by an implication only |
| `ConstraintRefusals.AnyByHand` | go/strictcli/constraints.go:916-931 | an at-least-one of leaves refuses exactly when every provided leaf is implied |
| `ConstraintRefusals.ImpliesRefusesLegal` | go/strictcli/constraints.go:965-1057 | aa implies bb and the two belong together: sending aa alone is legal and refused |
| `ConstraintDoors.JudgeCall` | go/strictcli/constraints.go:654-673 | arguments read, set evaluated and schema projected for one call: acceptance is the empty report where every rule is exact, and follows from it where every at-least-one delivers |
| `TagDsl.Tokenize` | go/strictcli/tagdsl.go:88-142 | the tokens are the longest-name reading of the text, or the first bad character |
| `TagReading.LexIff` | go/strictcli/tagdsl.go:88-142 | tokenizing gives exactly the tokens that tile the text with blanks between them, each name as long as it can be |
| `TagReading.LexFailsIff` | go/strictcli/tagdsl.go:88-142 | it fails exactly at the first character where no token can begin |
| `TagDsl.Parser.ParseChain` | go/strictcli/tagdsl.go:184-265 | one level of the descent leaves exactly the tree and position of the left-associative chain at that level |
| `TagDsl.Parse` | go/strictcli/tagdsl.go:152-166 | a whole token list parses to its descent tree, or is refused when anything is left over |
| `TagDsl.MatchTagExpr` | go/strictcli/tagdsl.go:329-350 | tokenized, parsed and evaluated; an empty text is refused; what the answer says of the tags is stated on the texts by the TagMeaning rows |
| `TagGrammar.ParseIffDerives` | go/strictcli/tagdsl.go:152-312 | the parser accepts a token list with a tree exactly when the five-level grammar derives the list with that tree |
| `TagGrammar.TreeUnique` | go/strictcli/tagdsl.go:184-312 | the grammar is unambiguous |
| `TagGrammar.AcceptedInOrder` | go/strictcli/tagdsl.go:184-312 | the accepted tree's leaves and operators in order are the non-parenthesis tokens |
| `TagReading.MatchIff` | go/strictcli/tagdsl.go:329-346 | matching answers exactly on the texts whose tokens the grammar derives, with what the derived tree says of the tags |
| `TagMeaning.NameMeans` | go/strictcli/tagdsl.go:38-40 | a name matches exactly the tags it is among |
| `TagMeaning.GroupMeans` | go/strictcli/tagdsl.go:303-316 | parentheses around any text that matches change nothing |
| `TagMeaning.NegationMeans` | go/strictcli/tagdsl.go:47-49 | ! before a name, a parenthesised expression or a negation turns its answer round |
| `TagMeaning.OperatorMeans` | go/strictcli/tagdsl.go:56-85 | & is both, | is either, ^ is one but not the other, - is the left and not the right, of the two operands' own answers |
| `TagMeaning.TwoOperators` | go/strictcli/tagdsl.go:150-257 | of two operators the tighter of - | ^ & takes its operands first, and alike the left one |
| `Names.TrimMeans` | go/strictcli/tagdsl.go:329-331 | trimming takes the white space of Unicode off both ends, and all of it |
| `TagPrinting.MinimalIsLeast` | go/strictcli/tagdsl.go:184-312 | no derivation of a tree at a level has fewer parentheses than the printed one |
| `TagPrinting.PrintParses` | go/strictcli/tagdsl.go:88-312 | printing with minimal parentheses, then tokenizing and parsing, gives the tree back, names containing the difference operator's character included |
| `TagPrinting.MatchPrinted` | go/strictcli/tagdsl.go:324-346 | matching a printed tree evaluates the tree |
| `SchemaJson.SchemaObject.Set` | go/strictcli/schema_json.go:41-47 | overwrites in place or appends, keeping keys distinct and exactly the map's |
| `SchemaJson.SchemaObject.Get` | go/strictcli/schema_json.go:49-51 | finds the member with that key, and nothing only when there is none |
| `SchemaJson.SchemaObject.Delete` | go/strictcli/schema_json.go:55-66 | removes the member and keeps the others in order |
| `SchemaJson.SchemaObject.InsertAfter` | go/strictcli/schema_json.go:72-86 | a new key goes behind the existing one or last; a known key is overwritten where it stands |
| `SchemaJson.DeleteUndoesInsert` | go/strictcli/schema_json.go:55-86 | deleting a newly placed key restores the object |
| `SchemaJson.SetKeepsOrder` | go/strictcli/schema_json.go:41-47 | overwriting never moves a key |
| `CanonicalWriter.Builder.WriteValue` | go/strictcli/schema_json.go:154-251 | refuses exactly the values that reach a kind without a JSON form; otherwise appends the laid-out text of the value's document, floats in the canonical float form |
| `CanonicalWriter.Builder.WriteMembers` | go/strictcli/schema_json.go:256-278 | refuses exactly when a member is refused; otherwise appends the members of an object in the order of the given keys |
| `CanonicalWriter.CanonicalJSON` | go/strictcli/schema_json.go:282-288 | text exactly for the serialisable values; an RFC 8259 reader of it gets the same document back, key order, integers and floats included; and it is laid out as the JsonLayout rows say |
| `CanonicalWriter.DocRepresents` | go/strictcli/schema_json.go:154-278 | the document read back has the value's scalars, its lists in order, an ordered object's keys in their order and a plain map's keys ascending |
| `JsonLayout.TextLaidOut` | go/strictcli/schema_json.go:180-279 | every item stands on its own line, two spaces further in than what holds it, a closing bracket on a line at its opener's depth, one space behind a colon and no other white space |
| `JsonLayout.EscapesOnly` | go/strictcli/schema_json.go:108-151 | only the quote, the backslash and control characters are escaped, by the short escape where there is one and four small hexadecimal digits otherwise |
| `JsonRoundTrip.ReadQuoted` | go/strictcli/schema_json.go:115-151 | a quoted string reads back as itself whatever follows it |
| `JsonRoundTrip.RoundTrip` | go/strictcli/schema_json.go:115-287 | reading a written document gives it back, in either layout |
| `JsonRoundTrip.TextInjective` | go/strictcli/schema_json.go:115-287 | a written text determines its document |
| `JsonRoundTrip.FloatReads` | go/strictcli/float.go:40-74 | the canonical form of a float, read as an RFC 8259 number, is that float again and never an integer |
| `Numbers.FixedForm` | go/strictcli/float.go:40-61 | zero, and magnitudes from 1e-6 up to 1e21, print as sign, whole part, point and fraction, the fraction never empty |
| `Numbers.ScientificForm` | go/strictcli/float.go:63-74 | any other prints as mantissa, e, an explicit sign and an exponent without padding |
| `NumberValues.FixedMeans` | go/strictcli/float.go:40-63 | fixed notation is for zero and for magnitudes from 1e-6 up to 1e21, as real numbers |
| `NumberValues.SmallWholeMeans` | go/strictcli/mcp.go:965-969 | a float prints as an integer exactly when its value is whole and below 1e15, and then as that integer |
| `McpDigest.CanonicalIsText` | go/strictcli/mcp.go:955-1007 | the digest encoding is the compact text of the value with sorted keys, small whole floats as the integers they are |
| `McpDigest.CanonicalInjective` | go/strictcli/mcp.go:955-995 | equal texts exactly for the same values: objects as unordered maps, numbers for what they say |
| `McpDigest.FloatsSaid` | go/strictcli/mcp.go:965-969 | two floats say the same number exactly when they are one float or both zero |
| `McpDigest.TextNoNewline` | go/strictcli/mcp.go:955-1007 | the encoding never contains a raw newline |
| `McpDigest.MaterialDetermines` | go/strictcli/mcp.go:1011-1015 | equal digest materials exactly for the same tool name and the same arguments, newlines in names included |
| `Output.DecodeUTF8Replacing` | go/strictcli/output.go:77-136 | the chunk decoder writes what the byte-at-a-time WHATWG decoder emits and returns an unfinished tail undecoded |
| `Output.ChildCapture.Write` | go/strictcli/output.go:52-60 | appends the decoding of what has become decidable; at most three bytes are held |
| `Output.ChildCapture.Close` | go/strictcli/output.go:63-70 | all texts appended concatenate to the one-shot decoding of everything received |
| `Output.CaptureChild` | go/strictcli/output.go:52-70 | however the bytes are cut into writes, the member gains exactly the one-shot decoding |
| `Output.HeldBound` | go/strictcli/output.go:47-60 | an unfinished sequence has at most three bytes |
| `Output.WellFormedPassesThrough` | go/strictcli/output.go:77-136 | well-formed input is unchanged |
| `Utf8.DecodeScalars` | go/strictcli/output.go:77-136 | every decoding consists of scalar values, so it is well-formed |
| `Utf8.WellFormedUnchanged` | go/strictcli/output.go:77-136 | an encoding decodes to the scalars it encodes and leaves nothing held |
| `Utf8Subparts.ScalarRead` | go/strictcli/output.go:72-76 | where an encoded scalar stands, it is read as itself, whatever follows |
| `Utf8Subparts.SubpartReplaced` | go/strictcli/output.go:72-76 | where none stands, one U+FFFD replaces the maximal subpart, and reading goes on behind it |
| `Utf8Subparts.SubpartExists` | go/strictcli/output.go:72-76 | every input has a maximal subpart at its start |
| `PayloadValidator.ScanValue` | go/strictcli/payload_schema.go:268-292 | reports the first unrepresentable or oversized number in index and sorted key order, at its path |
| `PayloadValidator.ValidateSchema` | go/strictcli/payload_schema.go:400-513 | reports the first deviation in the pinned keyword order, independent of map iteration |
| `PayloadValidator.ValidateInstance` | go/strictcli/payload_schema.go:521-629 | reports the first violation in the pinned order: type, const, enum, required, declared, additional, items |
| `PayloadValidator.FindRepeat` | go/strictcli/payload_schema.go:429-438 | finds the first entry equal to an earlier one |
| `PayloadMeaning.DeepEqualMeans` | go/strictcli/payload_schema.go:298-341 | equality is sameness up to the spelling of numbers, on representable values only |
| `PayloadMeaning.DeepEqualEquivalence` | go/strictcli/payload_schema.go:298-341 | symmetric and transitive, and reflexive exactly on representable values |
| `PayloadMeaning.ScanIff` | go/strictcli/payload_schema.go:268-292 | the document check passes exactly the values all of whose numbers are representable and within 2^53 |
| `PayloadMeaning.SchemaIff` | go/strictcli/payload_schema.go:400-513 | registration accepts exactly the literals of the closed keyword set |
| `PayloadMeaning.TypeMatchesMeans` | go/strictcli/payload_schema.go:343-351 | a type name matches a kind exactly when it says so of the value; an integer is any number without fraction |
| `PayloadMeaning.InstanceIff` | go/strictcli/payload_schema.go:521-629 | for an accepted schema and a clean value nothing is reported exactly when the value satisfies the schema |
| `PayloadMeaning.MembersIff` | go/strictcli/payload_schema.go:577-614 | the declared and the additional pass together judge every member once |
| `PayloadOrder.UnknownFirst` | go/strictcli/payload_schema.go:400-420 | of a schema literal the least unknown keyword is reported before anything else |
| `PayloadOrder.BrokenFirst` | go/strictcli/payload_schema.go:400-513 | then the first broken one of type, required, enum, const, properties, items and additionalProperties |
| `PayloadOrder.ScalarsFirst` | go/strictcli/payload_schema.go:521-576 | of a value a wrong type is reported first, then const, then enum, then the first required name that is missing |
| `PayloadOrder.DeclaredNext` | go/strictcli/payload_schema.go:577-592 | then the least declared member that is not allowed |
| `PayloadOrder.OthersNext` | go/strictcli/payload_schema.go:593-614 | then the least other member that is not allowed, at the object where none may be added |
| `PayloadOrder.ItemsLast` | go/strictcli/payload_schema.go:615-629 | and of an array the first item that is not allowed |
| `PayloadFindings.FaultIsReal` | go/strictcli/payload_schema.go:521-629 | what is reported is a broken keyword at its position, following the schema that governs it |
| `PayloadFindings.ScanIsReal` | go/strictcli/payload_schema.go:268-292 | what the document check reports stands at the reported position |
| `PayloadFindings.ValidateValue` | go/strictcli/payload_schema.go:633-650 | the whole emission-time check: silent exactly on clean values that satisfy the schema |
| `PayloadFindings.PathReads` | go/strictcli/payload_schema.go:85-165 | a rendered path reads back as its steps |
| `PayloadFindings.PathInjective` | go/strictcli/payload_schema.go:85-165 | two findings with one path are at one position |
| `McpBase64.IsCanonical` | go/strictcli/mcp.go:823-847 | holds of a text exactly when it is the unpadded base64url encoding of some bytes |
| `McpBase64.CanonicalIffEncoding` | go/strictcli/mcp.go:811-860 | the spelling rule and the encoding of RFC 4648 (sections 3.5 and 5) name the same texts |
| `McpBase64.EncodingUnique` | go/strictcli/mcp.go:811-860 | a canonical text spells one byte string |
| `McpBase64.LettersRun` | go/strictcli/mcp.go:809-811 | the alphabet runs A to Z, a to z, 0 to 9, - and _ |
| `McpBase64.EncodingBits` | go/strictcli/mcp.go:836-847 | the letters spell the bits of the bytes in order, with zeros in what is left over |
| `McpContinuation.Continuation.MintBlob` | go/strictcli/mcp.go:869-887 | mints a payload bound to principal, request and a 300-second expiry |
| `McpContinuation.Continuation.Prune` | go/strictcli/mcp.go:934-940 | forgets exactly the spent ids that have expired, in any visiting order |
| `McpContinuation.Continuation.VerifyBlob` | go/strictcli/mcp.go:893-931 | the checks in order, pruning and consumption included; nothing is consumed by a refusal |
| `McpContinuation.NextSound` | go/strictcli/mcp.go:869-940 | every admissible step keeps: ids unique, spent ids minted, each acceptance bound and dead |
| `McpContinuation.RunSound` | go/strictcli/mcp.go:869-940 | so does every run from a fresh process |
| `McpContinuation.AcceptedOnce` | go/strictcli/mcp.go:869-940 | over every run no id is accepted twice, and each acceptance is for its own principal and request before expiry |
| `McpContinuation.DeadStays` | go/strictcli/mcp.go:893-940 | a spent or expired id stays dead whatever comes, pruning included |
| `McpContinuation.DeadRefused` | go/strictcli/mcp.go:893-931 | a dead id is refused |
| `McpContinuation.LiveAccepted` | go/strictcli/mcp.go:893-931 | a live blob presented by its own client for its own request is accepted |
| `McpContinuation.VerdictByHistory` | go/strictcli/mcp.go:869-931 | after any run the verdict on a minted blob follows from the history alone: expired 300 seconds after its mint, then another client, another request, presented before, and otherwise good |
| `McpContinuation.ForeignRefused` | go/strictcli/mcp.go:893-913 | failed verification is the verdict exactly on blobs the run did not mint |
| `McpConfirmation.ConfirmationExchange` | go/strictcli/mcp.go:1141-1220 | the outcome of every case: a presented blob by its verdict and then by the answer, malformed parameters, no continuation, and a call that presents nothing by earlier consent, consequence and what the client can render; the state changes exactly by the verification and any re-ask |
| `McpConfirmation.AnswerMeans` | go/strictcli/mcp.go:1107-1134 | null is no answer; only an accept with proceed true consents; decline, cancel and an accept with any other proceed refuse |
| `McpConfirmation.TheAnswerMeans` | go/strictcli/mcp.go:1163-1178 | the answer is what stands under its key among the responses, and nothing when it is not there |
| `McpConfirmation.LegacyConfirmation` | go/strictcli/mcp.go:1235-1282 | the answer is the first response to the blob on the channel, everything before it held in order; consent is exactly an acceptance there before expiry, and whatever came, the blob is dead on return |
| `McpConfirmation.AskedIsSpent` | go/strictcli/mcp.go:1252-1266 | verifying straight after minting spends the blob or finds it expired |
| `McpConfirmation.NeverAgain` | go/strictcli/mcp.go:1235-1282 | after any further run, a blob that went out is refused |
| `McpConfirmation.Channel.NextLine` | go/strictcli/mcp.go:283-293 | what was held comes first, then the stream, nothing lost |
| `McpConfirmation.Channel.AwaitResponse` | go/strictcli/mcp.go:308-330 | reads up to the first response to its id and holds every other message in order |
| `EffectsHandle.EffectLog.AppendRecord` | go/strictcli/effects.go:979-986 | a cache entry advances only the cache counter, any other only the rendered one |
| `EffectsHandle.Handle.RecordCacheWrite` | go/strictcli/effects.go:2131-2139 | appends the next cache entry and nothing else |
| `EffectsHandle.Handle.ResolveArgv` | go/strictcli/effects.go:1217-1232 | resolves every element in order or stops at the first refused |
| `EffectsHandle.Handle.MatchesAllowlist` | go/strictcli/effects.go:1236-1253 | observes exactly when some prefix is matched by settled operands, element for element |
| `EffectsHandle.Handle.SettledArgv` | go/strictcli/effects.go:1737-1746 | refuses at the first unsettled operand |
| `EffectsHandle.Handle.RunCall` | go/strictcli/effects.go:1338-1380 | refusals in the pinned order; an observe is executed and never recorded, and is stale once a dry run has recorded a mutation; any other run is recorded under the next number and executed only live |
| `EffectsHandle.Handle.SpawnCall` | go/strictcli/effects.go:1386-1455 | authorised, recorded, then branded in a dry run or started live |
| `EffectsHandle.Handle.WriteCall` | go/strictcli/effects.go:1483-1528 | both operands are resolved before authorisation; the detail carries the byte count, or the brand of unsettled content; the file is written only live |
| `EffectsHandle.Handle.MkdirCall` | go/strictcli/effects.go:1550-1554 | a directory is created only live, after its record; a dry run returns the brand of the record's number |
| `EffectsHandle.Handle.RemoveCall` | go/strictcli/effects.go:1558-1560 | a path is removed only live, after its record; a dry run returns the brand of the record's number |
| `EffectsHandle.Handle.PathEffect` | go/strictcli/effects.go:1695-1726 | the shared body of the two: resolve, authorise, record, then brand or settle and act |
| `EffectsHandle.Handle.RenameCall` | go/strictcli/effects.go:1563-1603 | source and destination resolve in that order; the move happens only live, after its record |
| `EffectsHandle.Handle.ChmodCall` | go/strictcli/effects.go:1607-1639 | the mode shows in leading-zero octal in the detail; it changes only live, after its record |
| `EffectsHandle.Handle.HttpCall` | go/strictcli/effects.go:1643-1691 | a declared read is refused for methods outside GET, HEAD and OPTIONS and for grants, is never recorded, and is stale once a dry run has recorded a mutation; any other request is recorded and sent only live |
| `EffectsMeaning.CallActs` | go/strictcli/effects.go:1338-1726 | in every state a call acts exactly when its operands are all delivered and it is an allowed read not yet stale or a live allowed mutation, and then by the one action that carries it out: words in order, source to destination, the bytes, mode, bits, verb and url passed |
| `EffectsMeaning.CallRecords` | go/strictcli/effects.go:1288-1322 | a call is recorded exactly when it is an allowed mutation of accepted operands, under the next number, with its kind, verb, detail, size and the grant it names |
| `EffectsMeaning.LoggedAsDone` | go/strictcli/effects.go:1338-1726 | the record of a live call that acts renders exactly the action performed |
| `EffectsMeaning.CallReturns` | go/strictcli/effects.go:1338-1905 | a recorded dry call and a stale read return a brand, what acts returns what the world answered, and the rest an error |
| `EffectsMeaning.OperandsRefuse` | go/strictcli/effects.go:1165-1232 | the first operand that may not be passed is named with its reason, before a content and anything else |
| `EffectsMeaning.CallRefuses` | go/strictcli/effects.go:1236-1275 | behind the operands: a read of a mutating method, a grant on a read, a read-only dispatch, a grant not declared or of another kind, an operand nobody has produced |
| `EffectsMeaning.CacheRecords` | go/strictcli/effects.go:2131-2139 | a cache write is recorded under its own number, in either mode and never as something a dry run would do |
| `EffectsMeaning.OutputMeans` | go/strictcli/effects.go:1925-1945 | output is text exactly when it encodes one, with one line break behind it dropped |
| `EffectsMeaning.OctalMeans` | go/strictcli/effects.go:1324-1328 | a mode shows as a zero and its octal digits |
| `EffectsSafety.StepSound` | go/strictcli/effects.go:1288-1322 | every call with forwarded results keeps the dispatch invariant |
| `EffectsSafety.DispatchSafe` | go/strictcli/effects.go:957-1007 | over every run: rendered and cache entries number 1, 2, 3 independently; mutationRecorded means a rendered entry in dry mode; an unsettled result implies it; dry and read-only dispatches only ever read; a read-only log holds cache entries only |
| `EffectsSafety.FrozenAfterMutation` | go/strictcli/effects.go:1351-1380 | in a dry run everything done is done before the first recorded mutation |
| `EffectsSafety.BackstopSilent` | go/strictcli/effects.go:1728-1746 | forwarding results only, the settling backstop never fires |
| `EffectsSafety.BackstopCovers` | go/strictcli/effects.go:1198-1214 | without that discipline, a call that passes an unsettled carrier acts exactly when it is a live write on a settled path that nothing else refuses and the carrier, no spawned one, is its content; it then writes no bytes |
| `EffectsSafety.ContentIsNotCovered` | go/strictcli/effects.go:1483-1528 | the zero result beside a failed run is such a content |
| `EffectsPreview.DetailFills` | go/strictcli/effects.go:1198-1232 | a recorded detail fills the call's shape with what each forwarded result renders as |
| `EffectsPreview.CallShadows` | go/strictcli/effects.go:1165-1214 | a call that resolves live resolves dry to the same plan but for what is unsettled |
| `EffectsPreview.ObserveSame` | go/strictcli/effects.go:1236-1253 | forwarding past every prefix, both runs take the same calls for observes |
| `EffectsPreview.StepPreviews` | go/strictcli/effects.go:1338-1726 | one step keeps the dry run a preview of the live one |
| `EffectsPreview.PreviewFaithful` | go/strictcli/effects.go:1338-1726 | for every straight-line handler whose live calls all succeed: same numbers, kinds, verbs and grants, details equal up to what forwarded results deliver, and full agreement until the first mutation |
| `EffectsPreview.ExactUntilMutation` | go/strictcli/effects.go:1351-1380 | until a step records a mutation the dry and the live run have the same results, log and history |
| `ArgvTokens.Tokenize` | go/strictcli/parse.go:289-389 | phase 1 yields the occurrences, positionals and separator tail of the item-by-item reading, or its first error |
| `ArgvMeaning.AssignedReads` | go/strictcli/parse.go:308-338 | --flag=value gives the flag everything behind the first equals sign; a boolean and a negation take none; what is neither is unknown |
| `ArgvMeaning.LongReads` | go/strictcli/parse.go:339-372 | --flag is a negation, a clear, a boolean alone, or a flag with the next token, which there has to be |
| `ArgvMeaning.ShortReads` | go/strictcli/parse.go:373-388 | -f is read like the flag it is a short of; anything else with one dash stands for itself |
| `ArgvMeaning.OthersRead` | go/strictcli/parse.go:292-307 | what has no dash and a lone dash stand for themselves, -- is the separator or hands the rest to the receiver, and behind the separator everything stands for itself |
| `ArgvMeaning.LongForms` | go/strictcli/parse.go:308-360 | the long forms are --name=value, --name, --no-name and --unset-name |
| `ArgvRoundTrip.EveryTokenLands` | go/strictcli/parse.go:269-389 | each token of an accepted argv is in exactly one occurrence, positional or tail, in order, apart from the one separator; each occurrence says what its own tokens say |
| `ArgvRoundTrip.RoundTripWhen` | go/strictcli/parse.go:269-389 | without a separator receiver, an accepted argv written out in the long form, positionals behind a separator, reads as the same names, raw values, kinds and positionals exactly when the long spelling agrees with each short it uses |
| `ArgvRoundTrip.RoundTrip` | go/strictcli/parse.go:269-389 | every accepted argv of a command survives that way exactly when every short leads to a flag whose long spelling takes values alike and, for a boolean, is no negation and no clear |
| `ArgvTables.FlagIndex.Walk` | go/strictcli/selector.go:577-608 | the walk of the scope tree indexes every declaration by name and by short, in order of first appearance |
| `ArgvTables.BuildTables` | go/strictcli/parse.go:231-266 | the lookup tables are the first declaration of each name and short, then the global flags over them |
| `ArgvMeaning.LongsMean` | go/strictcli/parse.go:231-266 | the long spellings are every name declared by the command or globally, the negation of a negatable boolean and the clear of a nullable flag of the command; the first declaration of a name decides |
| `ArgvMeaning.ShortsOfBoth` | go/strictcli/parse.go:231-266 | the shorts are those any declaration claims, inside a choice or out, and the globals' |
| `ArgvTables.TablesWellFormed` | go/strictcli/parse.go:231-266 | the tables of declarations past the registration guards spell every flag right |
| `ArgvTables.DeclaredRoundTrip` | go/strictcli/strictcli.go:3926-3932 | whenever the globals were registered, a registered command has an argv that does not survive exactly when a short leads to a flag whose name a global takes the other way, or to a boolean flag named like the clear of a nullable flag |
| `ArgvTables.UnscopedRoundTrip` | go/strictcli/update.go:256-285 | with the globals registered before the command and every declaration outside choices, the guards leave no such argv |
| `ArgvTables.ClearClash` | go/strictcli/update.go:256-285 | a nullable flag inside a choice passes the guards beside a boolean flag named like its clear, and -u does not survive |
| `ArgvTables.LevelClash` | go/strictcli/strictcli.go:4534-4548 | a flag inside a choice passes the guards beside an earlier boolean global of its name, and -l with a value does not survive |
| `ArgvTables.LateLevelClash` | go/strictcli/strictcli.go:2604-2637 | a global registered after the command may take a root flag's name the other way: -l with a value is accepted and does not survive |
| `ArgvTables.LateClearClash` | go/strictcli/strictcli.go:2604-2637 | a global registered after the command may be named like the clear of a root property: -u is accepted and does not survive |
| `NestedConfig.NestedGet` | go/strictcli/config.go:19-38 | the moving cursor finds what stands at the dotted path |
| `NestedConfigObjects.NestedSet` | go/strictcli/config.go:42-61 | changed in place, the map objects hold the tree with the value set, a map value keeping its own objects; every other object is new, and none outside the tree is touched |
| `NestedConfigObjects.NestedDelete` | go/strictcli/config.go:66-100 | reports whether the path was there; the map objects hold the tree with it deleted and emptied maps gone |
| `NestedConfigObjects.Edited` | go/strictcli/config.go:42-100 | editing one map object changes the tree at that one place only |
| `NestedConfig.SplitDotted` | go/strictcli/config.go:19-21 | dot-free parts come back from their dotted spelling |
| `NestedConfig.GetSet` | go/strictcli/config.go:19-61 | get after set returns the value |
| `NestedConfig.SetElsewhere` | go/strictcli/config.go:19-61 | setting leaves unrelated paths alone |
| `NestedConfig.GetDeleted` | go/strictcli/config.go:66-100 | a deleted path is absent; deleting an absent one changes nothing |
| `NestedConfig.DeleteElsewhere` | go/strictcli/config.go:66-100 | deleting leaves unrelated paths alone |
| `NestedConfig.SetKeepsFull` | go/strictcli/config.go:42-61 | setting a non-empty value leaves no empty sub-map |
| `NestedConfig.DeleteKeepsFull` | go/strictcli/config.go:66-100 | deleting leaves no empty sub-map |
| `NestedConfig.DeleteUndoesSet` | go/strictcli/config.go:42-100 | deleting undoes setting exactly on a fresh path: nothing there, no scalar crossed, no empty map on the way |
| `NestedConfig.FreshMeans` | go/strictcli/config.go:42-100 | without empty sub-maps, fresh means absent and past no scalar |
| `NestedConfig.CollectNestedKeys` | go/strictcli/config.go:104-118 | one key for each leaf path, each once, whatever order the maps are visited in |
| `NestedConfig.CollectsExactlyWhen` | go/strictcli/config.go:104-118 | the keys are exactly the dotted leaf paths just when no map stands under an empty key at the top; there the recursion drops that key |
| `NestedConfig.EmptyTopKeyDropped` | go/strictcli/config.go:104-118 | a leaf under an empty key at the top is listed as if it stood at the top |

## Left out

- ConstraintRefusals.DeliversIff: stated for forests of at-least-one and all-or-none rules with distinct keys; where rules share leaves, leaves forced by one rule can supply another's branch, and only the direction of `ConstraintSoundness.SoundProjection` is proved.
- TagDsl.Parser.ParseChain: the four binary levels share one body over the level's operator; the original writes it out four times.
- SchemaJson.SchemaObject.Set: members are values; a nested object shared between two parents and changed later is not modelled.
- PayloadFindings.ValidateValue: starts from the normalised document; turning a Go value into one is outside.
- NestedConfigObjects.NestedSet: a map value comes with objects that are not the tree's own; one that is part of the tree already would make it no tree.
- EffectsPreview.PreviewFaithful: handlers are straight-line; a handler that reads a carrier and branches stops with the truncation panic, which is not modelled.
- `findCycle` and the shortfall branch of `resolveCheckOrder`: no run reaches them once expansion has succeeded.
- Selector election, scope checking, the update construct and the exit step; an invocation's elections are an input of constraint evaluation.
- Phases 2 to 4 of `parseCommand`; among them the election that renames an occurrence of a short two choices share.
- ArgvTables.DeclaredRoundTrip: a site keeps whether it stands outside every choice, not its whole path, and a value shape whether it takes a value; the guards on paths and arities, and on a clear among the flags of its own command, are stronger than the ones assumed.
- The sentences of errors, help text and diagnostics; errors are constructors that carry what the sentence names.
- Decoding JSON and rendering a Go value as a document (`normalizePayload`); validators start from the normalised document, and a number literal is the float64 it parses to together with the integer it spells.
- The search for a float's shortest digits (`strconv`), NaN and infinities, and the writers' narrower number kinds, which print as the wide ones do.
- The digest's default case, for kinds a decoded JSON document never holds.
- The `Redact` replacer, option parsing and body files of effect calls; a call starts from its resolved options, or from their rejection.
- The claim on rendering the would-do log, and the text layout of its lines.
- Real processes, requests, files, signals, pipes and child reaping; a spawned child's later `Wait`, `Signal` and `Kill`.
- Cryptography and randomness; the legacy request's other JSON members; the locks around shared state.
- Go strings are sequences of Unicode scalar values; strings that are not valid UTF-8 are modelled only where bytes are decoded.
- `splitEscaped`: its comment promises one backslash where the code appends two, so it has no inverse to state.
- Globs, regular expressions, TOML reading and editing, configuration templates, value coercion.

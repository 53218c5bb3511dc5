# Verification model of the Rocket NPU tool chain

A Dafny model of the parts of the repository whose correctness is an argument rather than a
measurement: text rewrites that must not miss a matcher, scanners that must read back what a
compiler printed, graph passes that must not change a model, and the planner that cuts a
convolution into tiles. `dafny verify dfyconfig.toml` checks all of it.

| module | what it models |
|---|---|
| `Text`, `Counting`, `Spellings` | the Rust `str` operations the driver uses, on characters; counting over an interval; the words the code looks for |
| `SpecRewrite`, `SpecLines`, `SpecBounds`, `SpecViews`, `SpecEnds`, `SpecModel`, `SpecSafety`, `SpecAgain`, `SpecLast`, `SpecEnable` | the transform-spec rewriter, from single lines to the safety of `--no-offload` and `--elementwise` |
| `SpecLists`, `SpecLive` | the matcher lists of any text, entry by entry, and families of specs that slip through |
| `SpecBatch`, `SpecBatchModel` | `--batch-matmul`: a pass spliced into a chain of passes |
| `Scanner`, `Lexing`, `Decisions`, `Quoting`, `Locations`, `DecisionsModel` | the quote- and nesting-aware attribute scanner and the decision record it reads |
| `Report`, `ReportModel`, `ExportKinds` | the one-pass placement scan and its block structure; the names of exports |
| `Audit`, `Json` | reconciliation, the strict verdict, JSON strings |
| `Devices`, `DeviceNames` | device attributes and the check of the names in them |
| `Onnx`, `OnnxPasses`, `OnnxSkip`, `OnnxRope`, `Rotary`, `RotaryCount` | the graph passes of the importer: what they do to the list of nodes, and to graphs with a denotation |
| `SweepLine` | the overlap measure of the multicore benchmark |
| `Policy` | the scoped planning-policy override |
| `Tiling`, `TilePlan`, `TileGrid`, `TileRows`, `TileConv`, `Fc` | the convolution planner's tiles, what they compute, and the fully-connected lowering |

The pattern is the same throughout. The source's loops are methods, proved equal to recursive
functions over the rest of the input. The functions are then compared with something that does
not know how they work: a printed syntax tree with a meaning of its own (a spec whose matchers
accept operations, a record, a module of blocks, a chain of passes), an independent definition
(a measure of instants, a sum over a window, the fewest pieces of any cut), or a run of a graph.
The class `Onnx.Model` is the model object the importer updates, and `Policy.Thread` the
thread-local cell.

Graph operators are parameters. `OnnxSkip` assumes that the fused node is the normalization of
its sum with its epsilon and axis, and that a trailing unset input equals an absent one;
`OnnxRope` assumes what reshape, transpose and the two ranks of rotary embedding do. The two
`LawsMet` lemmas give operators that satisfy these laws.

## Where the code and its promise part

These are stated with their exact conditions in the lemmas named.

- `disable_admission` (`SpecLines.AdmissionExact`) disarms a line only when its dictionary is
  nonempty and holds no typed value and no nested dictionary, and the line names `no_offload`
  nowhere else; a line that names it elsewhere, in a comment say, stays live.
- `replace_bound` (`SpecBounds.BoundsLineExact`, `SpecBounds.BoundsLostExact`) looks for `umin` and
  `umax` anywhere in the line: a value called `%umin3` is edited instead of the bound
  (`SpecBounds.NamedLikeAKey`).
- `foreach_match_matchers` (`SpecLists.ItemRead`) reads comments like code: an arrow before an entry, a
  comma or an `@` between a symbol and its arrow and ` : (` anywhere in the list hide a matcher, and a
  quoted symbol is never read (`SpecLive.ArrowLeavesLive`, `CommaLeavesLive`, `SymbolLeavesLive`,
  `EndLeavesLive`, `QuotedLeavesLive`).
- `sequence_is_defeatable` (`SpecSafety.AlignedFound`) ends a sequence at the next
  `transform.named_sequence @`: it reads past a declaration with a visibility keyword and past the
  closing brace, takes a declaration in a comment for one, and an op named in a comment behind a line
  or in a string for a predicate (`SpecLive.PrivateLeavesLive`, `OutsideLeavesLive`, `MentionLeavesLive`,
  `RemarkLeavesLive`).
- in each of these cases `neutralize` can succeed and leave a listed matcher live; it leaves none live
  exactly when every listed matcher that is not covered and is declared has a predicate before its end
  anyway (`SpecLists.ListedExact`).
- `enable_elementwise` (`SpecEnable.EnableKeepsLine`) changes more than the marked lines: it
  also drops the carriage return of every line that a line feed ends (`SpecLast.EnableEnds`).
- `enable_batch_matmul` (`SpecBatch.UnbatchedReadExact`, `SpecBatchModel.LongerHandleBreaks`) matches a
  prefix of the handle, so that success can leave the recording pass on a handle nothing defines,
  and (`SpecBatchModel.Splice`) does not look where the commented pass stands.
- `is_contraction_kind` (`ExportKinds.ConvTwoD`) lists `conv_2d`, which is never read: those names
  are read as `conv`, a contraction too.
- `dispatch_target` (`ReportModel.QuotedTargetExact`) cuts a quoted name at a double colon.
- `attribute_body` (`Devices.AttributeBodyExact`) reads past the end of a body that ends in `-`
  or `=`.
- `unquote` undoes neither MLIR's hexadecimal escapes (`Quoting.UnquoteQuote`,
  `DecisionsModel.RoundTrip`) nor the `\u` escapes `json_string` writes (`Json.UnquoteReadsJson`).
- `format_location` (`Locations.LocExact`) promises the first file, line and column of a fused or
  call-site location, and gives the first thing in quotes: an alias in front hides its file
  (`Locations.AliasesHide`), and a name or a label comes out in its place.
- `wrap_rank3_rotary_embedding` (`OnnxRope.PartialExact`) takes the heads to be twice as wide as the
  cosine cache, and so changes a partial rotary embedding.
- `split_skip_layernorm` (`OnnxSkip.BiasExact`, `OnnxSkip.BiasLost`) drops the bias of a four-input
  node.
- the docstring of `wrap_rank3_rotary_embedding` counts 8 surviving pairs; the number is
  heads - 1 + gcd(heads - 1, seq) in general (`RotaryCount.SurvivorsExact`), and 8 for its
  example.

## Model

| member | source | states |
|---|---|---|
| SpecRewrite.RunNeutralize | rocket-compiler/src/spec.rs:208-291 | the line loop that defeats every matcher, with its refusals, equals the function `Neutralize` |
| SpecRewrite.RewriteAll | rocket-compiler/src/spec.rs:239-281 | pushing rewritten lines one by one, stopping at the first unreadable predicate, equals the recursive rewrite |
| SpecRewrite.ReadMatchers | rocket-compiler/src/spec.rs:360-381 | the moving search cursor collects the names of every `foreach_match` list in order |
| SpecRewrite.UndefeatableOf | rocket-compiler/src/spec.rs:218-222 | the matchers collected one by one are exactly those without something to rewrite in their own sequence |
| SpecRewrite.SequenceBody | rocket-compiler/src/spec.rs:399-421 | the cursor finds the text of the first sequence whose whole symbol is the name |
| SpecRewrite.RunEnableElementwise | rocket-compiler/src/spec.rs:137-174 | uncommenting and counting marked lines equals the function, refused without a marked line |
| SpecRewrite.UnmarkEach | rocket-compiler/src/spec.rs:137-155 | each line loses its marker, or is kept, and the count is that of marked lines |
| SpecLines.AdmissionExact | rocket-compiler/src/spec.rs:298-322 | an admission line comes out holding `no_offload` with every attribute kept if and only if its dictionary holds it already, or the line names it nowhere and its dictionary, if any, is nonempty, without typed values and nested dictionaries |
| SpecLines.BoundsRewrite | rocket-compiler/src/spec.rs:265-281 | with neither key before the bounds, both bounds become 999999 and every other character stays |
| SpecBounds.BoundsLineExact | rocket-compiler/src/spec.rs:265-281 | the rewrite of any bounds line: a bound stays as it was exactly when its key stands in the name before it; the digits after that key are replaced instead, and the line is refused exactly when there are none |
| SpecBounds.BoundsLostExact | rocket-compiler/src/spec.rs:265-281 | both bounds come out 999999 if and only if the line can be read and neither key stands in the name before them, or the bound missed was 999999 already |
| SpecBounds.NamedLikeAKey | rocket-compiler/src/spec.rs:325-342 | the line of a value `%umin3` comes out naming `%umin999999`, its lower bound unchanged |
| SpecBounds.RewriteAgain | rocket-compiler/src/spec.rs:239-281 | on every line whatever, the rewrite of a rewritten line is that line |
| SpecViews.BodyFound | rocket-compiler/src/spec.rs:399-421 | in any text of lines, looking a sequence up and finding a predicate in the text that is taken for its body is an automaton over the lines, however many declarations a line spells and wherever |
| SpecModel.RewriteModelLine | rocket-compiler/src/spec.rs:239-281 | rewriting the text of a line gives the text of the disarmed line, or keeps it byte for byte: predicates that can be disarmed are, with every attribute kept; a line with a comment behind it changes in the comment only; what else is altered says so |
| SpecModel.PredicateSeen | rocket-compiler/src/spec.rs:239-281 | every predicate is taken for one, and what else is taken for one is a line that names an op in a comment behind it, in a string or as part of another name |
| SpecEnds.RewriteEnded | rocket-compiler/src/spec.rs:239-281 | every line whatever is rewritten, or refused, alike with and without a line feed behind it, which stays |
| SpecLists.ItemRead | rocket-compiler/src/spec.rs:371-377 | an entry of a list, with any text before its `@`, between its symbol and its arrow and after it, is read by its name if and only if the symbol is bare, no arrow stands before it back to the last comma and no comma or `@` between it and the first arrow, or a comment in front of the arrow spells the name again; all else that is read comes from comments |
| SpecLists.ListRead | rocket-compiler/src/spec.rs:371-377 | a list gives what its entries give, in order, up to the first end mark, also one in a comment |
| SpecLists.MatchersRead | rocket-compiler/src/spec.rs:360-381 | the matchers read from a text with any number of lists of any entries are those the lists give |
| SpecLists.EntryRead | rocket-compiler/src/spec.rs:360-390 | a readable entry in front of the first end mark of its list is read, whatever else any text holds before the list, in it and after it |
| SpecLists.ListedExact | rocket-compiler/src/spec.rs:208-291 | after success, for any list of any text: a listed matcher accepts exactly when no predicate stands before its end, at the latest the next declaration in any spelling; one that the reader finds and the lookup reads aright never does; so none fires if and only if every other listed one is undeclared or has a predicate of its own |
| SpecLive.ArrowLeavesLive | rocket-compiler/src/spec.rs:208-291 | with any one-line comment before its entry that holds an arrow and no `@`, comma or colon, the spec is neutralized without a complaint and `@b` accepts every operation without a dimension of 999999 |
| SpecLive.QuotedLeavesLive | rocket-compiler/src/spec.rs:383-390 | the same for a matcher spelled `@"b"` |
| SpecLive.CommaLeavesLive | rocket-compiler/src/spec.rs:371-377 | the same for any comment between the symbol and its arrow that holds a comma and no `@`, dash or colon |
| SpecLive.SymbolLeavesLive | rocket-compiler/src/spec.rs:383-390 | the same for any comment between them whose last symbol is another one, without a comma, dash or colon |
| SpecLive.EndLeavesLive | rocket-compiler/src/spec.rs:366-370 | the same for any one-line comment before the entry that holds ` : (` and no `@`: the reader ends the list there |
| SpecLive.PrivateLeavesLive | rocket-compiler/src/spec.rs:399-421 | the same for a listed, readable `@a` without a predicate, when a `transform.named_sequence private` with one comes next |
| SpecLive.OutsideLeavesLive | rocket-compiler/src/spec.rs:399-421 | the same when a predicate stands between the brace that ends `@a` and the next declaration |
| SpecLive.RemarkLeavesLive | rocket-compiler/src/spec.rs:415-418 | the same when the only op of `@a` stands in a comment behind a line |
| SpecLive.MentionLeavesLive | rocket-compiler/src/spec.rs:399-421 | the same when a comment in an earlier sequence with a predicate spells the declaration of `@a` |
| SpecLive.WellNeutralized | rocket-compiler/src/spec.rs:208-291 | a spec of five lines meets all conditions asked of one, and is neutralized |
| SpecSafety.NeutralizeExact | rocket-compiler/src/spec.rs:208-291 | on any lines the rewriter can read: refused without a matcher, refused naming the matchers for which the lookup finds no predicate, refused when nothing is taken for one, and otherwise the printed disarmed lines with the counts |
| SpecSafety.AlignedFound | rocket-compiler/src/spec.rs:392-421 | the lookup finds a predicate exactly when the sequence holds one of its own, on lines whose declarations are all in the one spelling it searches for and spelled nowhere else, with predicates inside sequences and no op named in a comment behind a line or in a string |
| SpecSafety.NeutralizeSafe | rocket-compiler/src/spec.rs:200-291 | after success on any readable lines a sequence accepts an operation without a dimension of 999999 if and only if none of the predicates before its end in MLIR's sense is disarmed and the others, as they came out, accept; on aligned lines every matcher read has a predicate of its own, and declines when its predicates can be disarmed |
| SpecAgain.NeutralizeTwice | rocket-compiler/src/spec.rs:208-291 | on any text of lines, neutralizing the result again gives the same text, counts included, if no line taken for a predicate stands in an open list or names a list or a declaration |
| SpecAgain.RewriteGains | rocket-compiler/src/spec.rs:239-342 | no rewritten line gains an op name, a list or a declaration |
| SpecLast.NeutralizeEnds | rocket-compiler/src/spec.rs:208-291 | every text is neutralized, or refused, alike with and without a line feed at its end, which the result then has too |
| SpecLast.JoinedTwice | rocket-compiler/src/spec.rs:208-291 | neutralizing twice is neutralizing once also for a text without a final line feed |
| SpecLast.EnableEnds | rocket-compiler/src/spec.rs:137-174 | every text is enabled, or refused, alike with and without a line feed at its end, which the result then has too, if and only if it is refused or does not end in a carriage return |
| SpecAgain.NestedDictionaryStaysLive | rocket-compiler/src/spec.rs:298-322 | for every key and inner dictionary, the attribute lands in the inner one, and the admission still accepts whatever the planner admits |
| SpecEnable.EnableKeepsLine | rocket-compiler/src/spec.rs:137-155 | a line comes out byte-identical if and only if it carries no marker and does not end in a carriage return |
| SpecEnable.EnableModel | rocket-compiler/src/spec.rs:137-174 | the result prints the spec with its marked entries live and counts them; without one it is refused |
| SpecEnable.EnableOnce | rocket-compiler/src/spec.rs:137-174 | a second run is refused; the matchers `neutralize` reads are the same before and after, the uncommented ones included, however the lists are laid out |
| SpecEnable.EnableThenNeutralize | rocket-compiler/src/spec.rs:137-174 | the enabled spec can be neutralized exactly when the spec can, and then a sequence accepts exactly when none of its own lines, up to its end in MLIR's sense, refuses the operation; every matcher read is one the lookup found a predicate for |
| SpecBatch.RunEnableBatchMatmul | rocket-compiler/src/spec.rs:72-116 | the two edits and both refusals equal the function `EnableBatchMatmul` |
| SpecBatch.UnbatchedReadExact | rocket-compiler/src/spec.rs:72-116 | on every text, success gives the text with its one use repointed and no use left; that use reads the handle the unbatching pass defines if and only if no character of a name follows the old one |
| SpecBatchModel.BatchModel | rocket-compiler/src/spec.rs:72-116 | on a printed chain of passes: refused without a commented pass, refused unless exactly one use matches, otherwise the printed rewired chain with three lines enabled per pass |
| SpecBatchModel.Splice | rocket-compiler/src/spec.rs:57-71 | a linear chain stays linear if and only if the commented pass stands between the gemv handle and the recording pass, and then its passes are the old ones with the unbatching one before the recording one |
| SpecBatchModel.BatchEndToEnd | rocket-compiler/src/spec.rs:57-71 | from text to meaning: executing the rewritten chain applies the original's passes with `rocket-unbatch-matmul` composed in |
| SpecBatchModel.RepointExact | rocket-compiler/src/spec.rs:49-50 | a repointed pass reads the unbatched handle itself exactly when it read the old one itself |
| SpecBatchModel.LongerHandleBreaks | rocket-compiler/src/spec.rs:72-116 | a chain whose recording pass reads `%gemv_funcs2` runs; the flag succeeds on it and leaves a chain that reads a handle nothing defines |
| Scanner.RunTopLevelSplit | rocket-compiler/src/decisions.rs:323-353 | the loop over depth, string and escape state equals the recursive scanner |
| Scanner.RunBalanced | rocket-compiler/src/decisions.rs:271-300 | the bracket matcher's loop equals the recursive one, failing on unbalanced text |
| Scanner.RunTopLevelGroups | rocket-compiler/src/decisions.rs:303-319 | the group cursor equals the recursive reading |
| Scanner.SplitCanonical | rocket-compiler/src/decisions.rs:323-353 | for every text, even with unbalanced brackets or open strings, the parts join back to it and each part splits into just itself |
| Scanner.BalancedIs | rocket-compiler/src/decisions.rs:271-300 | a bracketed group whose content is neutral for the scanner is returned whole |
| Lexing.Lex | rocket-compiler/src/decisions.rs:266-353 | every text is string literals, other characters, and perhaps a literal that is not closed: what follows holds of every text |
| Lexing.SplitExact | rocket-compiler/src/decisions.rs:323-353 | splitting cuts any text at the separators outside of literals and brackets and nowhere else; a bracket that closes nothing is passed over |
| Lexing.BalancedExact | rocket-compiler/src/decisions.rs:271-300 | on any text the group of the first opening bracket ends at the bracket that closes it, those in literals aside, and there is none if nothing does |
| Lexing.UnquoteExact | rocket-compiler/src/decisions.rs:238-257 | any literal, closed or not, means its characters with the newline and tab escapes undone and other backslashes dropped; a value without a quote is kept |
| Lexing.NoSymbolExact | rocket-compiler/src/decisions.rs:218-236 | a text names no symbol if and only if it has no `@`, or a quote behind the first one that is not closed |
| Decisions.RunUnquote | rocket-compiler/src/decisions.rs:238-257 | the unescaping loop equals the recursive reading of a quoted string |
| Decisions.RunParseDecision | rocket-compiler/src/decisions.rs:156-191 | the step-by-step filling of fields equals the fold over the parts |
| Decisions.RunLocationAliases | rocket-compiler/src/decisions.rs:138-154 | the alias table read line by line equals the recursive table, later definitions winning |
| Decisions.RunScan | rocket-compiler/src/decisions.rs:87-103 | the two passes over the module equal the record function |
| Quoting.UnquoteQuote | rocket-compiler/src/decisions.rs:238-257 | a string as MLIR quotes it unquotes to its characters with the hexadecimal digits in place of each quote and nonprintable, so to itself if and only if it holds neither |
| Quoting.QuoteReadsDigits | rocket-compiler/src/decisions.rs:238-257 | a quote, printed `\22`, comes back as `22`, and a line feed as `0A` |
| Locations.PlaceReads | rocket-compiler/src/decisions.rs:193-217 | any file, name, fused, call-site or alias location, nested in any way, reads as the first thing it prints in quotes, with line and column when that is a file, and as unknown when it prints none |
| Locations.LocExact | rocket-compiler/src/decisions.rs:193-217 | a location reads as its first file, line and column if and only if the first thing printed in quotes spells just that; where no name, label or alias of a file is printed before the first file, if and only if the file name prints verbatim |
| Locations.AliasesHide | rocket-compiler/src/decisions.rs:193-217 | `loc(fused[#loc7, #loc8])` reads as unknown whatever files its aliases stand for, so it keeps its promise if and only if they stand for none |
| DecisionsModel.LeadingIntegerIs | rocket-compiler/src/decisions.rs:260-266 | every 64-bit integer printed with its type reads back |
| DecisionsModel.IntegerExact | rocket-compiler/src/decisions.rs:259-267 | on every value: the digits it starts with, behind a minus sign perhaps, are the number they spell if 64 bits hold it, else zero, and so is anything else |
| DecisionsModel.GroupsOfArray | rocket-compiler/src/decisions.rs:303-319 | the groups of a printed array are its entries, whatever braces or quotes their strings hold |
| DecisionsModel.EntryReads | rocket-compiler/src/decisions.rs:156-191 | parsing a printed entry, in every key order and with any location, gives the decision with its strings and its location as they read |
| DecisionsModel.ScanReads | rocket-compiler/src/decisions.rs:87-191 | scanning a printed module finds every decision, in order and with its numbers, whatever its strings, names and locations hold and whatever its alias lines define |
| DecisionsModel.RoundTrip | rocket-compiler/src/decisions.rs:87-191 | the scan gives the decisions themselves if and only if no string field holds a quote or a nonprintable character, no quoted function name does or holds a backslash, and every location reads as what it stands for |
| Report.RunScanPlacement | rocket-compiler/src/report.rs:48-110 | the one loop over current bucket, buckets and dispatch counts equals the fold over lines |
| Report.RunFold | rocket-compiler/src/report.rs:100-108 | folding the counts into a bucket sets each executable's dispatch sites by name |
| ExportKinds.KindExact | rocket-compiler/src/report.rs:218-235 | a name is read as kind `k` if and only if `k` stands behind its last `_dispatch_<ordinal>_`, none of the words of `k` starts with a digit, and nothing or an underscore and a digit follows |
| ExportKinds.NoKindExact | rocket-compiler/src/report.rs:213-222 | a name has no kind if and only if it has no `_dispatch_<ordinal>_` that is its last `_dispatch_`, or a digit follows that |
| ExportKinds.ContractionExact | rocket-compiler/src/report.rs:151-156 | an export counts as a contraction if and only if one of the six names stands behind its last `_dispatch_<ordinal>_`, alone or with extents behind it |
| ExportKinds.ConvTwoD | rocket-compiler/src/report.rs:241-246 | no name is read as `conv_2d`: the digit ends the kind, and such a name is read as `conv` |
| ExportKinds.LastInfixDecides | rocket-compiler/src/report.rs:218-235 | for every name the kind is that of the text from its last infix on |
| ReportModel.ScanIsStructured | rocket-compiler/src/report.rs:48-110 | the one-pass scan of a printed module is its block-structured reading: exports under the tagged executable enclosing them, nothing under untagged ones or ones that name no symbol, dispatches by name, quoted or bare |
| ReportModel.DispatchesConserved | rocket-compiler/src/report.rs:112-118 | with distinct symbols the Rocket and CPU counts add up to the dispatch lines naming a tagged executable |
| ReportModel.QuotedTargetExact | rocket-compiler/src/report.rs:163-169 | a dispatch line naming its executable in quotes is read as that executable if and only if the name holds no `::` |
| Audit.RunStrict | rocket-compiler/src/audit.rs:133-180 | collecting the problems in order equals the verdict function |
| Audit.ReconciliationBalances | rocket-compiler/src/audit.rs:45-59 | accepted + beyond candidates = Rocket dispatches + unclaimed, with at most one excess nonzero |
| Audit.FindingsExact | rocket-compiler/src/audit.rs:119-180 | the findings are one complaint for every decision other than `direct` and `tiled`, in order, then the number of the others beyond the Rocket dispatch sites if it is positive, then one for every CPU executable with an export named after a contraction, each as often as reported, most dispatch sites first |
| Audit.VerdictExact | rocket-compiler/src/audit.rs:133-180 | without a record the verdict says so; otherwise it lists the findings, or passes when there are none |
| Audit.StrictExact | rocket-compiler/src/audit.rs:133-180 | the verdict passes if and only if the record is nonempty, every decision in it is `direct` or `tiled`, the Rocket dispatch sites are at least as many, and no CPU executable has an export named after a contraction |
| Audit.ReadMarked | rocket-compiler/src/audit.rs:133-180 | no escape of MLIR makes or unmakes a decision to offload, and no decision is lost |
| Audit.FindingsEndToEnd | rocket-compiler/src/audit.rs:119-180 | from the text of both records to the findings: the complaints are about the printed decisions that are neither `direct` nor `tiled`, in order, and the rest is counted against the dispatch lines and the CPU-tagged executables |
| Audit.StrictEndToEnd | rocket-compiler/src/audit.rs:119-180 | from the text of both records, with locations and alias lines of any kind, the verdict passes if and only if decisions are printed and each is `direct` or `tiled`, the dispatch lines naming a Rocket-tagged executable are at least as many, and no CPU-tagged executable has an export line named after a contraction |
| Audit.SortSorts | rocket-compiler/src/report.rs:136-144 | the refused CPU executables come out in the order they are reported in |
| Audit.LexIs | rocket-compiler/src/report.rs:136-144 | names are ordered by the first character that differs, a prefix first |
| Audit.ContractionsCounted | rocket-compiler/src/report.rs:116-132 | the contraction dispatch sites of a printed module are the dispatch lines naming a CPU-tagged executable that exports a contraction |
| Json.RunJsonString | rocket-compiler/src/audit.rs:278-293 | the escaping loop equals the recursive one |
| Json.JsonRoundTrip | rocket-compiler/src/audit.rs:278-293 | a reader for the strings of section 7 of RFC 8259 gives every string back |
| Json.UnquoteReadsJson | rocket-compiler/src/decisions.rs:238-257 | the repository's own `unquote` reads a written string back if and only if its only control characters are newline and tab |
| Devices.RunAttributeBody | rocket-compiler/src/main.rs:213-230 | the loop over depth and previous character equals the recursive reading |
| Devices.RunDeviceSymbols | rocket-compiler/src/main.rs:191-208 | the cursor over every device attribute collects exactly the symbols in their bodies |
| Devices.AttributeBodyExact | rocket-compiler/src/main.rs:213-230 | the body of a well-bracketed attribute, with any number of arrows, is read exactly if and only if it does not end in `-` or `=` |
| Devices.NamesDeclaredExact | rocket-compiler/src/main.rs:252-286 | on every spec the check passes if and only if each symbol in each device attribute, nested ones included, is one of the two declared devices |
| Devices.MentionedInBody | rocket-compiler/src/main.rs:191-208 | the symbols of a well-bracketed attribute are those its own body refers to |
| Devices.SymbolRefsAre | rocket-compiler/src/main.rs:234-243 | the references read are exactly the symbols that follow an `@` |
| DeviceNames.AttributeBodyIs | rocket-compiler/src/main.rs:209-231 | on every text the body goes on to the bracket that closes the first one, arrow heads aside, or to the end |
| DeviceNames.CheckExact | rocket-compiler/src/main.rs:191-286 | on every text the check passes if and only if every name in the body of every `#hal.device.<mnemonic><` is one of the two devices, told from the text alone |
| Onnx.Model.SplitSkipLayernorm | tools/import_onnx.py:156-198 | the pass leaves the split node list, refilled only when a node was split, and returns the number split |
| Onnx.Model.WrapRank3RotaryEmbedding | tools/import_onnx.py:256-361 | the pass leaves the wrapped node list, appends the shape constants and the declared types, and returns the number wrapped |
| Onnx.Model.DropTrailingEmptyInputs | tools/import_onnx.py:146-153 | every node loses its trailing unset inputs and nothing else, and the returned count conserves the number of inputs |
| OnnxSkip.SplitPreserves | tools/import_onnx.py:156-198 | in graphs whose skip nodes have no bias, every name but the unread mean and deviation results and the made-up sums has the value it had |
| OnnxSkip.SplitStaysGraph | tools/import_onnx.py:156-198 | the split graph is topologically ordered and single-assignment again |
| OnnxSkip.BiasExact | tools/import_onnx.py:156-198 | the split keeps a node's first result under all operators that meet the laws and in all environments if and only if the node has at most three inputs or its fourth is unset |
| OnnxSkip.BiasLost | tools/import_onnx.py:156-198 | for every node with a bias, operators and an environment in which its result is 1 and the split's is 0 |
| OnnxSkip.DropPreserves | tools/import_onnx.py:146-153 | dropping explicitly unset trailing inputs changes no value of any run |
| OnnxPasses.DropExact | tools/import_onnx.py:146-153 | every node keeps all but its inputs, whose list loses exactly the unset ones behind the last set one |
| OnnxPasses.DropTwice | tools/import_onnx.py:146-153 | a second run drops nothing |
| OnnxPasses.SplitExact | tools/import_onnx.py:170-198 | the list grows by one for each skip node, every other node stays as it was and in order, and in the place of each stand an addition of its first two inputs under the sum's name and a normalization of that with the third |
| OnnxPasses.NoSkipLeft | tools/import_onnx.py:170-198 | no skip node is left |
| OnnxPasses.KeptExact | tools/import_onnx.py:191-193 | the attributes kept are those called epsilon or axis, each as often as it was there |
| OnnxPasses.KeptInOrder | tools/import_onnx.py:191-193 | and they keep their order |
| OnnxSkip.KeptSame | tools/import_onnx.py:191-193 | the attributes the split keeps give the same epsilon and axis as the node's own, or leave them out alike |
| OnnxSkip.LawsMet | tools/import_onnx.py:157-163 | the operator laws assumed hold of operators built from any sum, any bias and any normalization, the fused node adding its fourth input |
| Rotary.TransposeAt | tools/import_onnx.py:320-322 | under perm [0,2,1,3] the element at (b, x, y, d) goes to (b, y, x, d), in row-major positions |
| Rotary.TransposeTwice | tools/import_onnx.py:329-331 | the trailing transpose undoes the leading one, for every shape |
| Rotary.HeadMoves | tools/import_onnx.py:317-322 | the head vector at (b, n, s) after the transpose is the original one at (b, s, n) |
| Rotary.WrapIsRope3 | tools/import_onnx.py:270-276 | reshape, transpose, rank-4 rotation, transpose and reshape compute exactly the rank-3 rotation for every batch, length, head count and head size |
| Rotary.ReshapeVisits | tools/import_onnx.py:259-266 | without the transpose the element of (s, n) stands at sequence index (heads*s + n) mod seq |
| RotaryCount.HeadSurvivorsAre | tools/import_onnx.py:264-266 | a head keeps gcd(heads-1, seq) positions when that gcd divides its number, and none otherwise |
| RotaryCount.SurvivorsExact | tools/import_onnx.py:264-266 | exactly heads - 1 + gcd(heads-1, seq) of the pairs survive; one per head when the gcd is 1 |
| RotaryCount.EightOf1024 | tools/import_onnx.py:266-267 | 8 heads over 128 positions: 8 of 1024 |
| OnnxRope.NamesApart | tools/import_onnx.py:305-316 | names made up for different nodes or roles never collide, whatever the tags |
| OnnxRope.WrapPreserves | tools/import_onnx.py:256-361 | under the laws of the operators, in every graph whose known shapes hold and whose rotary nodes turn whole heads, every name the pass did not make up keeps its value |
| OnnxRope.WrapExact | tools/import_onnx.py:287-345 | for a wrapped node with heads of any size, the chain gives the value of the node exactly when rotating heads of twice the cosine width is rotating its own |
| OnnxRope.PartialExact | tools/import_onnx.py:270-276 | that holds for every tensor and every rotation of the first elements of a head if and only if the heads are twice as wide as the cosine cache: a partial rotary embedding is changed by the wrap |
| OnnxRope.DeclaredTrue | tools/import_onnx.py:337-348 | each declared type is the shape the wrapped graph computes under that name |
| OnnxRope.WrapStaysGraph | tools/import_onnx.py:317-355 | the wrapped graph is topologically ordered and single-assignment again |
| OnnxPasses.WrappedExact | tools/import_onnx.py:282-301 | a node is wrapped, with extents (B, S, N, 2W), if and only if it is a rotary node with three inputs, data known to be [B, S, N*2W] and a cosine cache known to be [P, W] with W > 0 |
| OnnxPasses.WrapPlaced | tools/import_onnx.py:278-361 | the list grows by four for each of these, every other node stays as it was and in order, and in the place of each stands its chain |
| OnnxPasses.NoRank3Left | tools/import_onnx.py:278-361 | no such node is left |
| OnnxPasses.AllDeclared | tools/import_onnx.py:305-357 | every chain gets its two shape constants and four declared types, with these extents, and nothing else gets any |
| OnnxRope.LawsMet | tools/import_onnx.py:259-276 | the operator laws assumed hold of operators built from any length-keeping rotation |
| SweepLine.CollectEdges | iree-rocket-hal/examples/multicore_bench.rs:544-548 | the loop pushes a rising and a falling edge for every interval, in order |
| SweepLine.SortEdges | iree-rocket-hal/examples/multicore_bench.rs:549 | the edges come out sorted by time and kind, a permutation of those put in |
| SweepLine.SweepEdges | iree-rocket-hal/examples/multicore_bench.rs:550-559 | the loop over depth, covered and previous equals the recursive sweep |
| SweepLine.Overlap | iree-rocket-hal/examples/multicore_bench.rs:543-560 | collect, sort and sweep return the measure of the instants at which at least two intervals overlap, and the window's length |
| SweepLine.SweepMeasures | iree-rocket-hal/examples/multicore_bench.rs:543-559 | any time-sorted order of the edges gives that measure, ties and empty intervals included |
| SweepLine.FractionMeasures | iree-rocket-hal/examples/multicore_bench.rs:560-565 | the fraction is the measure over the window, lies in [0, 1], and is 0 for disjoint intervals and for an empty window |
| Policy.Thread.Current | rocket-core/src/policy.rs:44-48 | the policy read is the innermost enclosing one, or the environment's |
| Policy.Thread.Replace | rocket-core/src/policy.rs:61 | entering replaces the cell and leaves what it held with the guard |
| Policy.Thread.Drop | rocket-core/src/policy.rs:56-60 | dropping the guard restores what it saved |
| Policy.Thread.WithPolicy | rocket-core/src/policy.rs:51-63 | the body runs under the policy and the cell is restored, whether it returns or unwinds |
| Policy.Thread.Run | rocket-core/src/policy.rs:44-63 | on an explicit stack of code, guards and handlers, where a panic discards code and drops every guard up to a handler, every program leaves the cell as it was and reads what lexical scoping says |
| Policy.ExplicitPolicyDecides | rocket-core/src/policy.rs:10-14 | under an explicit policy neither the environment nor an enclosing override changes anything read |
| Tiling.OutputsAre | rocket-core/src/conv.rs:2174-2201 | the output extent counts exactly the window positions that fit the padded input |
| Tiling.RangeLies | rocket-core/src/conv.rs:3144-3158 | the fetched range starts inside the input and before its last tap, so no subtraction wraps |
| Tiling.BoundsHold | rocket-core/src/conv.rs:3144-3173 | both span constructors hold every in-range tap of their outputs at the offset their padding says |
| Tiling.TapResident | rocket-core/src/conv.rs:3144-3173 | each tap of each output of a tile reads the same input position as in the whole, and is fetched if and only if that position is inside the input |
| Tiling.CoverOnce | rocket-core/src/conv.rs:3071-3088 | consecutive spans cover each output of their range once and no other |
| Tiling.BalancedSums | rocket-core/src/conv.rs:4020-4026 | balanced widths add up to the whole, never grow, shrink by at most one, and are positive when there are no more of them than outputs |
| Tiling.RunSplit | rocket-core/src/conv.rs:3071-3088 | the pushing loop equals the balanced split |
| Tiling.RowSpans | rocket-core/src/conv.rs:3071-3088 | the row tiles of given sizes follow each other to the last output, each made for its own rows |
| Tiling.ColumnSpans | rocket-core/src/conv.rs:3272-3291 | the column tiles of widths that add up follow each other to the last output and hold their taps |
| Tiling.WholeRow | rocket-core/src/conv.rs:3223-3251 | a column over all outputs reads the input row to its end, taps or not; any other is the span of its outputs |
| TilePlan.RunSplitGreedy | rocket-core/src/conv.rs:3098-3134 | whole if it fits, else the greedy loop, equals the function |
| TilePlan.Largest | rocket-core/src/conv.rs:3113-3128 | the downward search finds the largest grain within the capacity, or none when none fits |
| TilePlan.ChargeLeast | rocket-core/src/conv.rs:3117-3127 | a grain is charged the least number of rows from its first that hold every tap of its outputs, inside the input or not, and a stride for each of them |
| TilePlan.ChargeTaller | rocket-core/src/conv.rs:3117-3122 | the bottom edge is not seen: under any taller input the grain is charged the same, and that is what its tile fetches where nothing is clipped |
| TilePlan.ReadsClipped | rocket-core/src/conv.rs:3144-3164 | a tile fetches what its grain is charged, as far as the input goes |
| TilePlan.GreedyFills | rocket-core/src/conv.rs:3113-3128 | every greedy tile but the last fills its charge: one more output would exceed the capacity |
| TilePlan.FilledGreedy | rocket-core/src/conv.rs:3113-3128 | and no other tiles do so one after the other |
| TilePlan.SplitFewest | rocket-core/src/conv.rs:3090-3134 | the split is one tile when the whole input fits, else tiles that fill their charge, as few as any cut has |
| TilePlan.DocumentedCuts | rocket-core/src/conv.rs:3093-3096 | 28 rows with room for 15 are cut 14 + 13 + 1, 226 with room for 48 are cut 47 + 46 + 46 + 46 + 41 |
| TilePlan.GreedyFewest | rocket-core/src/conv.rs:3090-3097 | the greedy loop succeeds if and only if some cut within the charged capacity exists, and no such cut has fewer grains |
| TilePlan.SplitExact | rocket-core/src/conv.rs:3098-3134 | the split succeeds if and only if the whole input fits or the window of every single output does |
| TilePlan.GreedyEnough | rocket-core/src/conv.rs:3098-3134 | a capacity of one window and one stride always suffices, and every tile then fits it |
| TilePlan.GreedyWithin | rocket-core/src/conv.rs:3113-3128 | every greedy tile fetches at most the capacity |
| TileGrid.RunNearest | rocket-core/src/conv.rs:4119-4138 | the outward search equals the recursive one |
| TileGrid.NearestSpec | rocket-core/src/conv.rs:4082-4086 | a safe boundary in range is always found, none nearer exists, and of two as near the lower one is taken |
| TileGrid.RunMove | rocket-core/src/conv.rs:4107-4139 | moving the interior boundaries in place equals the recursive pass |
| TileGrid.MoveFromSafe | rocket-core/src/conv.rs:4065-4075 | moved boundaries keep their order and both ends, and every interior one is safe |
| TileGrid.StepExact | rocket-core/src/conv.rs:4110-4139 | a step of the pass over the boundaries fails exactly when no safe row is left between the moved boundary before it and the next one |
| TileGrid.MoveFromSome | rocket-core/src/conv.rs:4110-4139 | the pass succeeds when every tile but the first has a safe row of its own |
| TileRows.MoveFromExact | rocket-core/src/conv.rs:4107-4139 | the pass ends with given boundaries if and only if each interior one stands, the one before it moved, at the safe row between its neighbours nearest to where it was, the lower of two; so a safe one stays |
| TileRows.RealignSafe | rocket-core/src/conv.rs:4071-4075 | tiles that all start at safe rows are left as they are |
| TileRows.RowTilesGreedy | rocket-core/src/conv.rs:4044-4060 | for surfaces, and for dense rows of whole atoms, the row tiles of a column are the greedy ones: they exist if and only if the rows fit, and are one, or as few as any cut has |
| TileRows.RowTilesFewest | rocket-core/src/conv.rs:4044-4060 | for any pitch: the greedy tiles with their boundaries moved, as many; when they cannot be, the fewest balanced tiles that fit and can |
| TileGrid.RealignGood | rocket-core/src/conv.rs:4096-4149 | realigned tiles cut the output once, fit the capacity, and start on aligned fetch rows |
| TileGrid.RunRowTiles | rocket-core/src/conv.rs:4044-4060 | greedy tiles realigned, else the first balanced cut that fits and realigns |
| TileGrid.RunPlanGrid | rocket-core/src/conv.rs:4028-4063 | the loop over columns, declining one too wide or without row tiles, equals the function |
| TileGrid.CapturedSum | rocket-core/src/conv.rs:3999-4018 | each captured partition covers its output width |
| TileGrid.MinTiles | rocket-core/src/conv.rs:2960-2979 | the tile count is between one and the output height, as the split demands |
| TileRows.MinTilesLeast | rocket-core/src/conv.rs:2960-2979 | the count is the least with which tiles of as many output rows as strides fit behind the halo reach the last output |
| TileRows.RowsAllowed | rocket-core/src/conv.rs:2866-2875 | the rows allowed at a width are those that fit and that the feature-grain field can count with the kernel and the padding |
| TileGrid.RunPlan | rocket-core/src/conv.rs:3535-3616 | whole width, captured columns, then balanced columns, with the three refusals |
| TileGrid.PlanExact | rocket-core/src/conv.rs:3409-3410 | every plan puts each output position in exactly one tile and its widths add up; every tile fits width, row and feature-grain limits, holds its taps, and in dense layout starts 16-byte aligned |
| TileGrid.PlannableExact | rocket-core/src/conv.rs:4028-4063 | for a surface the search under balanced columns succeeds if and only if no column is wider than the widest row and under each the whole input or the window of every output fits in the rows its width leaves |
| TileGrid.PlanFewest | rocket-core/src/conv.rs:3369-3373 | without captured columns a surface plan has the fewest balanced columns that fit in that sense, and the refusal means that no number of columns does |
| TileRows.PlanStacks | rocket-core/src/conv.rs:3535-3616 | every plan is balanced columns, each over the row tiles the search gives its width, or captured columns over balanced row tiles |
| TileRows.PlanRows | rocket-core/src/conv.rs:4028-4063 | under every column of a plan that is not a captured one the rows are one tile when all fit in what the width leaves, else as few as any cut within the charge, each but the last one filled |
| TileRows.DensePlan | rocket-core/src/conv.rs:3535-3558 | a dense plan is one column: it exists if and only if the input row is no wider than the widest and its rows can be cut, which with rows of whole atoms is when they fit |
| TileRows.CapturedExact | rocket-core/src/conv.rs:3577-3592 | a shape with captured columns that does not fit in one column is planned if and only if every captured tile is within the limits |
| TileRows.CapturedTable | rocket-core/src/conv.rs:3999-4018 | exactly three shapes have captured columns |
| TileRows.RefusalExact | rocket-core/src/conv.rs:3555-3615 | a dense shape is refused for want of horizontal tiling, a captured one for its capacity, any other because no number of columns fits |
| TileGrid.RunLayout | rocket-core/src/conv.rs:3667-3698 | the running offset equals the recursive layout, refused when the total differs from the allocation |
| TileGrid.SlotsContiguous | rocket-core/src/conv.rs:3641-3646 | the scratch ranges are contiguous and disjoint, in tile order, to the total |
| TileGrid.LayoutExact | rocket-core/src/conv.rs:3641-3698 | the tiles of every plan fill the allocation of the whole output from its beginning to its end, and the layout refuses an allocation of any other size |
| TileConv.TileExact | rocket-core/src/conv.rs:3138-3143 | a convolution run on what a tile fetched, with the tile's padding, equals the whole convolution at the tile's outputs, for every image, weights, stride, padding and kernel |
| TileConv.PlanComputes | rocket-core/src/conv.rs:3409-3410 | the tiles of every plan leave the whole convolution at every output position and nothing elsewhere |
| Fc.UnitOutputs | rocket-core/src/conv.rs:2174-2201 | an axis under a 1x1 kernel, stride one and no padding has one output for every input: the lowered shape has one row and M columns |
| Fc.FcIsMatMul | rocket-core/src/fc.rs:81-85 | the lowered convolution is an M-by-1 image equal elementwise to the matrix product, for all M, K, N |
| Fc.FcPlanComputes | rocket-core/src/fc.rs:104-109 | every plan of the lowered shape computes the product, with column widths adding up to M |
| Fc.ColumnTilesConcatenate | rocket-core/src/fc.rs:153-167 | column tiles of any positive widths adding up to the output width, concatenated, give the same column of the product |

## Left out

- SpecSafety.NeutralizeSafe: ops are in their custom spelling, predicates and declarations on one line each, as in the shipped spec; the predicates of a body are conjunctive, so bodies with alternatives are not modelled; of a line the rewrite alters without disarming it (a nested dictionary, a key in a name) the meaning is a parameter.
- SpecLists.ListedExact: predicates that can all be disarmed; `SpecSafety.NeutralizeSafe` has the others.
- SpecLists.MatchersRead: no comment inside a list names `transform.foreach_match`; `EntryRead` does not ask that.
- SpecAgain.NeutralizeTwice: a predicate inside a list, which MLIR does not allow, could change what the list reads.
- SpecEnable.EnableThenNeutralize: "\n" line ends, since enabling rewrites the others (`EnableKeepsLine`); a marked line has an `@` or a comma before its arrow and names no op, list or declaration.
- SpecBatchModel.BatchEndToEnd: chains in the layout of the shipped spec, each pass on three lines; a handle denotes the list of passes applied to reach it, not the module those passes produce.
- DecisionsModel.RoundTrip: every entry prints its location, and any other key unless it is empty or zero; an alias stands for what the definitions before its own make of it, and an alias line in a spelling `Locations` does not print should read as unknown.
- Locations.LocExact: ranges of columns, and metadata of a fused location other than a word or a string.
- ReportModel.ScanIsStructured: executable names without a double colon, and no line that mentions a dispatch or a tag inside a string.
- OnnxSkip.SplitPreserves: made-up sum names are new to the graph and the mean and deviation results are not read; nodes with a bias are the subject of `BiasExact`.
- OnnxRope.WrapPreserves: the known shapes are the shapes the run has, made-up names are new to the graph, and the heads are twice as wide as the cosine cache; `PartialExact` says that others are changed.
- SweepLine.Overlap: intervals inside the window, as the callers measure them; instants are integers.
- SweepLine.FractionMeasures: the division is on reals, without rounding.
- SweepLine.SortEdges: an insertion sort stands for the library's sort; only the sorted permutation matters.
- Policy.Thread.Run: one thread; the environment is constant while it runs; code is a tree of reads, overrides, panics and handlers.
- TileGrid.PlanFewest: surfaces; `TileRows.DensePlan` has the dense plans, which have one column.
- TileRows.PlanRows: dense rows of whole atoms; for other pitches `TileRows.RowTilesFewest` says which row tiles `TileRows.DensePlan` finds, without an estimate of their number against every cut.
- TileGrid.PlanExact: buffer capacities, the widest row, the row pitch and the shapes with captured columns are parameters of the plan, not computed from precision and channel counts; unsigned 32-bit overflow of byte offsets is not modelled.
- TileConv.TileExact: integer arithmetic; a pixel is of any type and its weights any function, so quantization and accumulation width are not modelled.
- The choice of buffer split (`demand_based_cbuf_partition` and the large-kernel tables): a table lookup that only changes the parameters above.
- Register programs, weight packing, NC1HWC2 layout, the worker pool and the driver calls.
- `rocket-compiler/src/layout.rs`: a second client of the same scanner.
- The wording and `Display` forms of the reports, and `to_json` beyond its strings.
- `is_alphanumeric` beyond ASCII in bare symbols; positions in text are characters, not bytes.
- `scan`'s integer widths: counts are unbounded; decision integers are 64-bit and parse to 0 beyond that, as in the source.
- The pinning of symbolic dimensions and the oracle inputs of the importer.

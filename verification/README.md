# gonix: a verified model

gonix is a Go binding of the Nix C API. This project models the parts of it that have state,
branching or arithmetic of their own, and proves what they keep.

- **Client protocol** (`ClientProtocol`, `ClientRuns`): any number of calls on any number of clients,
  as interleaved steps over the busy flag, the handler goroutine with its one-slot channel, and the
  process-global interrupt flag. An invariant holds at every state of every run; from it follow mutual
  exclusion, safe cancellation, what each outcome means, absence of deadlock and a bound on the work of
  a call. Whether a requested interrupt stays set until its own clear is told from the state in which it
  is requested.
- **Client lifetime** (`ClientLifetime`): the handles a client owns and what they borrow, from
  `NewClient` under every choice of failing steps to `closeLocked`. Freeing a handle that a live owned
  handle borrows is excluded by the precondition of the native free.
- **Decoder** (`Values`, `Decoder`, `DecodeMeaning`, `DecodeErrors`, `TargetFields`, `Location`,
  `Evaluators`):
  `Unmarshal` as methods that write a Go variable in place and open and close references, proved equal
  to a pure function of the Nix value, the Go type, the old contents and the schedule of failing native
  calls; that function is proved against an independent account of which values fit a type, what they
  mean, which check fails first, at which part of the value and of the type an error is true, and which
  parts of the target are never touched.
- **Encoder** (`GoValues`, `GoMeanings`, `Builders`, `EvalOps`): conversion of Go values, the Nix values
  they stand for, the builder closures,
  `NewValue`, `EvalWithArgs` and flake output traversal, with the references and native builders they
  take.
- **Flake outputs** (`FlakeOutputs`): `GetFlakeOutputValue` as a call of the client protocol, with the
  fate of the value it returns.
- **Round trip** (`RoundTrip`): converting, building and decoding is the identity.
- **Paths** (`NumeralText`, `PathPrinter`, `PathFormat`): the diagnostic path printer, the format it
  prints, and a parser that undoes it.
- **Nix32** (`Numerals`, `PositionalText`, `Nix32`): the shift-and-mask loop and the base-32 digits of a
  number.
- **Native memory** (`AllocMaps`, `WrapperCalls`, `ResultArrays`): allocation maps behind wrapper structs,
  what each call with such a struct leaves allocated, and the C arrays that collect callback results.
- **Canonical formats** (`Strings`, `SettingList`): list settings.
- **Lock graph** (`JsonText`, `JsonGrammar`, `JsonContents`, `LockGraph`): lock inputs as JSON text, read
  exactly when the strings and arrays of RFC 8259 (sections 5 and 7) allow it and as what they stand for,
  and whole graphs as JSON values, read as the graph that the document says.

A native call is abstract: it succeeds or fails as a schedule says, and the theorems hold for every
schedule. A call is identified by the position in the value tree at which it is made and by what it does.

## Where the code falls short of its description

- `NewClient` is said to own and clean up what it creates. When setting the log sink path fails, the
  error is assigned to a variable that hides the one the deferred clean-up reads (client.go:68-70), and
  the context is never freed. `ClientLifetime.NewClient` states that this is the only such step, and
  `ClientLifetime.LoseContext` is the call with that input.
- The interrupt flag is global, and each cancelled operation clears it when its own handler is done
  (client.go:529-550). With several clients one operation's clear can take back another's request,
  as in the run of `ClientRuns.TwoClientsLoseTheFlag`. `ClientRuns.RequestKeptIffNoneMayClear` gives the
  condition at the request under which no continuation does so: no operation on another open client is
  underway before its own clear, or has yet to begin while that client is free or being left.
- A generated wrapper that takes a struct by value drops the only record of the blocks made for it, and
  no finalizer is set on that record. `AllocMaps.CallByValue` states that the call leaves the C heap as
  it was exactly when the struct was passed by reference before. `store.New` guards its call only when
  there are parameters (store/store.go:83-86), so without any, the default, two blocks stay on every
  call (`WrapperCalls.OpenStore`). The lookup path of `eval.New` (eval/evaluator.go:50-51), `CallMulti`
  (eval/ops.go:198) and garbage collection (store/store_gc.go:260) have no guard at all: a call leaves
  2 + 2n blocks for n entries, 2 + n for n arguments and 3 + n for n paths
  (`WrapperCalls.SetLookupPath`, `CallMulti`, `CollectGarbage`).
- The value of `GetFlakeOutputValue` is the caller's, to be closed (client.go:176-181). When the handler
  has found it and the cancellation wins the select all the same, it is returned together with an
  error, and the context it needs for its `Close` is already closed. `FlakeOutputs.GetAndClose` states
  that exactly then the reference stays open past any later `Close`, and
  `FlakeOutputs.CancelledAfterSuccess` gives a run in which it does.

## Model

| member | source | states |
|---|---|---|
| ClientProtocol.StepInv | client.go:398-451 | every step of every call or handler keeps the invariant: busy is held by exactly the call between its compare-and-swap and its release, and each call agrees with its client |
| ClientRuns.RunInv | client.go:508-555 | the invariant holds at every state of every run |
| ClientRuns.MutualExclusion | client.go:508-522 | on one client at most one of handler and closeLocked is active, its call holds busy, and no handle of the client has been freed while the handler runs |
| ClientRuns.ClearedAndFreedAfterReceipt | client.go:529-555 | the interrupt is cleared and handles are freed only after the handler's result was received, and then no handler of the client runs |
| ClientRuns.TurnedAwayIffBusy | client.go:508-512 | a call gets ErrConcurrentUse exactly when another call of the client has begun and not returned, and then changes nothing but its own outcome |
| ClientRuns.OutcomesAreDeserved | client.go:513-555 | counted on the steps taken: nil means that the handler finished exactly once, with success; an error without cancellation that it finished once and failed; a cancellation tells which; turned away or closed that it never finished; after a cancellation the client is closed and every handle it ever owned was freed |
| ClientRuns.HandlesAreCounted | client.go:139-152 | a client has the flakes it began with and one for each OpenFlake step of its calls; each FreeNext step of its calls has freed one handle |
| ClientRuns.ClosedIffAllFreed | client.go:407-451 | a client open at the start is closed exactly when its calls have taken a FreeNext step for each flake of the start, each flake opened since, and the five other handles |
| ClientRuns.FinishedOnce | client.go:518-521 | a handler finishes at most once, and what the call has of it is what it finished with |
| ClientRuns.CancelSteps | client.go:529-555 | a cancelled call requests the interrupt once, tries once to make a context, interrupts the store exactly if it could, and clears the interrupt once, in this order; any other call does none of it |
| ClientRuns.ClosedForGood | client.go:407-451 | a closed client stays closed, every handle it ever owned was freed, and a call that begins later never runs its handler |
| ClientRuns.ClosedOnReturn | client.go:508-555 | a call that drops busy leaves its client closed exactly when it was cancelled, found it closed, or is a Close; an operation that returns nil or its handler's error alone leaves it open |
| ClientRuns.FlagOnlyWhilePending | util/interrupt.go:16-48 | the flag is set only while some operation is between its request and its clear |
| ClientRuns.KeptIffNoneMayClear | client.go:529-550 | from a reachable state with a pending request and the flag set, the flag is kept up to that call's own clear by every continuation exactly when no operation on another open client is underway before its clear, or unbegun while that client is free or being left |
| ClientRuns.RequestKeptIffNoneMayClear | client.go:529-550 | the same at each request of each run, the condition being that of the state before the request |
| ClientRuns.SingleClientFlagHeld | client.go:529-550 | with a single client it stays set from the request until the result has arrived |
| ClientRuns.TwoClientsLoseTheFlag | client.go:529-550 | with two clients it need not: a run in which one operation awaits its running handler and the flag is clear |
| ClientRuns.NoDeadlock | client.go:508-555 | a call has no step left, its own or its handler's, exactly when it has returned |
| ClientRuns.BoundedWork | client.go:508-555 | however calls interleave, one takes at most 18 steps and one for each flake its client had at the start or that was opened on it, besides those that open flakes |
| ClientLifetime.Client.CloseLocked | client.go:407-451 | frees exactly what the client owns, each handle once, flakes first and the context last, never one that a live owned handle borrows; a closed client is left alone |
| ClientLifetime.Client.OwnedInOrder | client.go:412-442 | what a complete client owns, and so frees, in order: its flakes as they were opened, the evaluator, the store, the flake settings, the fetcher settings, the context |
| ClientLifetime.CloseNext | client.go:414-442 | closing the next resource keeps the freed handles a prefix of the order of closing |
| ClientLifetime.InsertOrdered | client.go:46-99 | a fresh handle put before the ones it borrows keeps the order safe to free from the front |
| ClientLifetime.AdoptOrdered | client.go:72-96 | the same for the resource that owns it |
| ClientLifetime.Client.OpenFlake | client.go:139-154 | a new flake is owned before the handles it borrows are closed; a failing one changes nothing |
| ClientLifetime.FirstFailureSteps | client.go:46-99 | the first failing step of a build, unfolded over the steps in order |
| ClientLifetime.Build | client.go:59-99 | a build fails exactly at its first failing step, and its deferred function sees the error exactly when that step is not setting the log sink path |
| ClientLifetime.NewClient | client.go:46-99 | a complete client exactly when no step fails; a failing build leaves no handle live exactly when the failing step is not setting the log sink path, and otherwise leaves the context |
| ClientLifetime.SinkFailureIsFirst | client.go:67-70 | with a log sink path whose setting alone fails, that is the first failing step; without a path nothing fails |
| ClientLifetime.LoseContext | client.go:60-70 | that build frees nothing and leaves exactly one new live handle, the context |
| DecodeMeaning.DecodeCorrect | eval/unmarshal.go:43-94 | decoding succeeds exactly when every native call works and the value fits the type, and then stores what the value means |
| DecodeMeaning.FieldsStop | eval/unmarshal.go:96-139 | the struct loop stops at the first field that does not fit: fields before hold their meaning, fields after are untouched |
| DecodeMeaning.ItemsStop | eval/unmarshal.go:192-233 | the same for list items |
| DecodeMeaning.EntriesStop | eval/unmarshal.go:154-179 | the map loop stops at the first attribute that does not fit; in the entries collected by then each name has the meaning of its last attribute before the stop, and no others |
| DecodeErrors.MeansUnique | eval/unmarshal.go:43-311 | a value has at most one meaning for a type and old contents |
| DecodeErrors.FrameOnError | eval/unmarshal.go:96-220 | a failed decode leaves slices, maps and scalars as they were, and a struct or array decoded exactly up to its first misfit |
| DecodeErrors.ErrorIsFirstFailure | eval/unmarshal.go:43-311 | the error returned is the first failing one of all checks in depth-first order |
| DecodeErrors.ErrorIsAtFirstFailure | eval/unmarshal.go:43-311 | for some k every check before the k-th passes, and the k-th is the one that fails with the error returned, or k is the end and there is no error |
| DecodeErrors.ErrorDenotesPosition | eval/unmarshal.go:91-233 | the path of an error leads through the value and the type, side by side, to a step of the decoding the error is true of: a kind the target there cannot receive, a number or length it cannot hold, a required field without attribute, or a native call that this step makes and that fails |
| DecodeErrors.DenotesMisfit | eval/unmarshal.go:91-233 | only a value that does not fit has an error that is true of a position in it |
| TargetFields.HiddenFieldsKept | eval/unmarshal.go:103-112 | whatever the value, type, old contents and failing calls, and whether the decode succeeds: an unexported or skipped field, however deep, keeps what it held |
| TargetFields.HiddenFieldIgnored | eval/unmarshal.go:103-112 | how such a field is declared and what it holds changes neither the error nor anything else in the target |
| TargetFields.ExportedFieldReceives | eval/unmarshal.go:113-133 | on success an exported field that is not skipped has the meaning of the attribute of its name, or, being not required and without one, what it held |
| TargetFields.RequiredFieldMissing | eval/unmarshal.go:118-122 | a required one without its attribute is an error |
| TargetFields.PointeeIsKept | eval/unmarshal.go:65-70 | a pointer that is not nil is decoded into what it points to, a nil one into a blank value |
| TargetFields.ElementsStartBlank | eval/unmarshal.go:192-199 | each element of a slice is decoded into a blank one |
| TargetFields.EntriesStartBlank | eval/unmarshal.go:154-179 | so is each entry of a map |
| TargetFields.ScalarIsStored | eval/unmarshal.go:235-311 | what a string, boolean, integer or float target holds after a successful decode |
| TargetFields.IntegerRanges | eval/unmarshal.go:268-296 | the numbers that targets of 8, 16, 32 and 64 bits hold, and the largest Nix integer |
| TargetFields.FloatRange | eval/unmarshal.go:298-311 | only 32-bit targets have a limit, (2^24 - 1) * 2^104, and only for finite numbers |
| Evaluators.Evaluator.UnmarshalValue | eval/unmarshal.go:43-94 | decodes in place exactly as the pure decoder says, keeping the open references as they were; terminates by value height, then type depth |
| Evaluators.Evaluator.UnmarshalStruct | eval/unmarshal.go:96-139 | the struct loop writes the fields the pure decoder says and closes each child |
| Evaluators.Evaluator.UnmarshalMap | eval/unmarshal.go:141-180 | the map loop assigns the target only when every entry decoded |
| Evaluators.Evaluator.UnmarshalSlice | eval/unmarshal.go:182-200 | the slice loop assigns the target only when every item decoded |
| Evaluators.Evaluator.UnmarshalArray | eval/unmarshal.go:202-221 | the array loop writes in place up to the first failing item |
| Evaluators.Evaluator.Close | eval/value.go:294-313 | a value gives up its handle even when Nix refuses to release it, and closing it again does nothing; with the context closed an open one keeps its handle and the close fails |
| Evaluators.Evaluator.Unmarshal | eval/unmarshal.go:16-41 | an invalid target, a freed evaluator and a nil, closed or foreign value are reported, in this order, without touching the target, and a closed context as a failure to force the value; otherwise the target and the printed error are the pure decoder's; unexported and skipped fields of the target, however deep, keep what they held; references are conserved under every schedule |
| Evaluators.PrintedAsIs | eval/unmarshal.go:43-94 | an error is returned with its path printed and otherwise as it arose |
| PathPrinter.ParseRender | eval/unmarshal.go:336-363 | the parser recovers the exact segments of every printed path |
| PathPrinter.RenderInjective | eval/unmarshal.go:336-363 | two segment lists are printed alike only when they are equal |
| PathFormat.PathPieces | eval/unmarshal.go:336-363 | the root, an index, an identifier and any other attribute are printed as `$`, `[i]`, `.name` and a quoted name in brackets |
| PathFormat.IndexInDecimal | eval/unmarshal.go:343-345 | an index is printed in decimal without leading zeros |
| PathFormat.QuotedCharacter | eval/unmarshal.go:340 | how each character of a quoted name is printed |
| PathFormat.NumberInHex | eval/unmarshal.go:340 | a character's number is printed in so many lower-case hexadecimal digits |
| GoValues.Convert | eval/go_value.go:17-69 | conversion succeeds exactly on convertible values, with the value they stand for; otherwise the error names a position that explains it, in a slice the first |
| GoValues.ConvertAny | eval/go_value.go:9-15 | the same from the root, nil becoming null |
| GoValues.RejectedIsNotConvertible | eval/go_value.go:30-68 | a position that explains an error makes the whole value unconvertible |
| GoMeanings.BuiltIsMeant | eval/go_value.go:9-69 | what converts is built as exactly the Nix values it stands for, nil as null, a value in an interface as itself, a map in any order; what does not convert stands for none |
| Builders.NewValue | eval/ops.go:71-87 | builds a value that denotes the tree, one new reference, exactly when no native call of the tree fails; otherwise the open references are as before; builders are freed either way |
| Builders.SucceedsIffNoCallFails | eval/builders.go:115-190 | building succeeds exactly when none of the calls of the tree fails: allocating each value, setting it or making it from a builder, and inserting each child |
| Builders.FillList | eval/builders.go:115-147 | the list builder: items in order, every temporary closed |
| Builders.FillAttrs | eval/builders.go:150-190 | the attribute builder: every name once, in whatever order Nix lists them, every temporary closed |
| Builders.ArrangedBuilds | eval/builders.go:166-186 | a listing of the bindings in any order still denotes the attribute map |
| EvalOps.EvalString | eval/ops.go:15-36 | one new reference on success, none on failure |
| EvalOps.Call | eval/ops.go:134-163 | the function applied to the argument as one new reference, or nothing |
| EvalOps.EvalWithArgs | eval/ops.go:44-68 | succeeds exactly when every step does, with the function applied to a value the argument denotes and one new reference; otherwise none |
| EvalOps.DenotesIsMeaning | eval/ops.go:44-62 | the argument handed to the function is a Nix value that the Go argument stands for |
| EvalOps.EvalInto | client.go:203-218 | decodes such a result into the target and closes it; when nothing ran, the target is untouched |
| EvalOps.GetOutputValue | client.go:472-506 | gives the value that the named attributes lead to from where it starts, the only one where names are not repeated, exactly when there is one and no call fails; each value given or obtained on the way is closed exactly once, except the one returned |
| EvalOps.SelectIsReached | client.go:472-506 | looking up names one after another finds the end of the chain of attributes of these names |
| FlakeOutputs.GetFlakeOutputValue | client.go:182-194 | in a run of the protocol: the value that the path leads to is returned exactly when the handler found it, cancelled or not, as one new reference; the context is open on return exactly when the client is |
| FlakeOutputs.ResolvesIffReaches | client.go:472-506 | the handler finds it exactly when no call on the way fails and the attributes of the path lead to a value |
| FlakeOutputs.GetAndClose | client.go:176-194 | the reference of a returned value cannot be given back exactly when the value came with an error, that is when the handler had succeeded and the cancellation won |
| FlakeOutputs.CancelledAfterSuccess | client.go:525-555 | a run of a single client that ends this way |
| EvalOps.SelectConcat | client.go:472-506 | looking up a path in two parts is looking it up at once |
| RoundTrip.KindsSurvive | eval/go_value.go:17-69 | which data the round trip covers, kind by kind |
| RoundTrip.SurvivesConverts | eval/go_value.go:17-69 | every Go tree of the documented kinds converts |
| RoundTrip.BuiltFits | eval/unmarshal.go:43-311 | what is built from it fits its type |
| RoundTrip.BuiltMeans | eval/unmarshal.go:43-311 | and means the tree it was built from |
| RoundTrip.RoundTripIdentity | eval/builders.go:115-190 | convert, build and decode gives the original back, nil slices and maps as empty ones, for any attribute order and any old contents of the target |
| RoundTrip.ThroughNix | eval/ops.go:71-87 | ConvertAny, NewValue, Unmarshal and Close in sequence: the variable holds the normal form of the original, or is untouched when a native call of the build fails, and no reference is gained or lost |
| Nix32.GroupIsDigit | pkg/utils/nix32.go:14-23 | the five bits taken from two adjacent bytes are a base-32 digit of the little-endian number |
| Nix32.EncodeNix32 | pkg/utils/nix32.go:10-29 | the loop writes the base-32 digits of the number, highest first |
| Nix32.CharacterIsDigit | pkg/utils/nix32.go:14-25 | character k is the alphabet's digit of floor(N / 32^(31-k)) mod 32 |
| Nix32.AlphabetIs | pkg/utils/nix32.go:3 | the alphabet has the digits and the lower-case letters but e, o, t and u |
| Nix32.DecodeEncoded | pkg/utils/nix32.go:10-29 | decoding an encoding gives the bytes back |
| Nix32.EncodeDecoded | pkg/utils/nix32.go:10-29 | every 32-character Nix32 string is the encoding of what it decodes to |
| Nix32.EncodedOrder | pkg/utils/nix32.go:3-29 | the order of encodings is the order of the numbers |
| AllocMaps.Heap.Borrow | pkg/raw/cgo_helpers.go:94-109 | every block of the lender becomes the borrower's, the lender is left empty, and each live block stays recorded in exactly one map |
| AllocMaps.Heap.FreeAll | pkg/raw/cgo_helpers.go:111-118 | frees each recorded block once and leaves the map empty |
| AllocMaps.UnpackItems | pkg/raw/cgo_helpers.go:1050-1076 | the array holds the C value of every item, and every block made on the way is in the one map returned |
| AllocMaps.PassStruct | pkg/raw/cgo_helpers.go:1454-1485 | the C object spells out the whole struct tree, in the predicted number of blocks, all in the one map returned |
| AllocMaps.PassValue | pkg/raw/cgo_helpers.go:1143-1149 | a struct passed before is taken as it then was, without allocating; any other as a new object |
| AllocMaps.Wrapper.PassRef | pkg/raw/cgo_helpers.go:1596-1619 | the second time the same object and no map; the first time the object, its blocks in the one map returned and kept, and every other map made on the way empty |
| AllocMaps.Wrapper.Free | pkg/raw/cgo_helpers.go:1576-1581 | frees every block of the object once, a second time nothing; the variable can be passed again exactly when the structs below it that were passed before are still live |
| AllocMaps.UseAndFree | store/store.go:83-88 | passing, using by value and freeing shows the callee the whole struct and leaves the C heap as it was |
| AllocMaps.CallByValue | pkg/raw/raw.go:1108-1120 | a call by value leaves nothing allocated exactly when the struct was passed by reference before, and otherwise the blocks of the whole tree, which no finalizer frees |
| AllocMaps.GuardedCall | store/store.go:83-88 | the C heap is as before a call exactly when passing by reference and freeing surround it |
| WrapperCalls.OpenStore | store/store.go:66-88 | C finds an array of all settings and their number, each as pointer and length of the key and of the value; the C heap is as it was, once the URI's copy is freed by its finalizer, exactly when there are parameters, whose 2 + 3n blocks are freed; without any, two blocks stay |
| WrapperCalls.SetLookupPath | eval/evaluator.go:50-51 | C finds an array of all entries, each as pointer and length, and their number; 2 + 2n blocks stay for n entries, which no finalizer frees |
| WrapperCalls.CallMulti | eval/ops.go:182-198 | C finds an array of the argument pointers and their number; 2 + n blocks stay |
| WrapperCalls.CollectGarbage | store/store_gc.go:235-260 | C finds action, liveness flag, the array of path pointers with its length, and the limit, in this order; 3 + n blocks stay for n paths |
| AllocMaps.ReadsKept | pkg/raw/cgo_helpers.go:2152-2183 | what a field's C value spells out survives whatever is allocated later |
| AllocMaps.OthersDrained | pkg/raw/cgo_helpers.go:1054-1057 | every other map made while passing is empty, so its finalizer frees nothing |
| WrapperCalls.ListBlocks | pkg/raw/cgo_helpers.go:1117-1140 | a list costs one block, and, unless its slice is nil, one for the array and those of its items |
| WrapperCalls.GCOptionsBlocks | pkg/raw/cgo_helpers.go:2152-2192 | garbage collection options cost one block more than their path list costs on its own |
| ResultArrays.ResultArray.Grow | pkg/raw/nix_go_store.c:286-306 | grows exactly when memory is granted and the size in bytes is allocatable, without wrapping; elements and everything else live are kept |
| ResultArrays.ResultArray.Reallocate | pkg/raw/nix_go_store.c:292-305 | a successful growth doubles the capacity and moves the elements; copies made by growth stay within twice the length |
| ResultArrays.ResultArray.AppendResult | pkg/raw/nix_go_store.c:272-320 | takes the entry exactly when nothing failed before and every allocation is granted; otherwise the array has failed for good and holds what it held |
| ResultArrays.ResultArray.AppendPath | pkg/raw/nix_go_store.c:459-498 | the same for store paths |
| ResultArrays.ResultArray.FreeAll | pkg/raw/nix_go_store.c:389-402 | gives back exactly the copies, the block and the header |
| ResultArrays.ResultArray.OwnedCount | pkg/raw/nix_go_store.c:569-581 | that is one or two allocations an element, the block if there is one, and the header |
| ResultArrays.CopiesApart | pkg/raw/nix_go_store.c:308-318 | no element shares a copy with an earlier one, so none is freed twice |
| ResultArrays.Collect | pkg/raw/nix_go_store.c:332-360 | the caller gets copies of every entry's name and path in the order reported exactly when nothing fails; otherwise nothing, and nothing allocated on the way is left |
| ResultArrays.CapacityOf | pkg/raw/nix_go_store.c:287-305 | n entries take the least of 4, 8, 16, ... elements, or of 8, 16, 32, ... for paths, that holds them |
| ResultArrays.GrantedInNumbers | pkg/raw/nix_go_store.c:286-306 | an entry needs memory for the array exactly when it is the first or finds it full: twice as many elements, of 16 or 8 bytes, and no more than PTRDIFF_MAX bytes |
| Strings.SortedUnique | client_config.go:201-205 | a set has one strictly sorted listing |
| Strings.SortStrings | client_config.go:201-205 | sorting the keys of a map gives it, whatever order they come in |
| Strings.LessByFirstDifference | client_config.go:205 | the order of Go strings: the smaller character at the first difference, or the shorter text |
| Strings.AsciiSpaces | client_config.go:196 | the ASCII spaces: tab to carriage return, and the blank |
| Strings.WideSpaces | client_config.go:196 | the other spaces are those of the Unicode property White_Space |
| SettingList.FormatSettingList | client_config.go:193-208 | the loops compute the sorted words of all values, joined |
| SettingList.TokensAreRuns | client_config.go:195-199 | the words of the setting are the runs of characters between spaces of any kind in the values |
| SettingList.FormattedByBlanks | client_config.go:207 | single blanks stand between the words and nothing else in the setting is a space |
| SettingList.FieldsOfJoin | client_config.go:196-207 | splitting undoes joining |
| SettingList.SplitOfFormatted | client_config.go:193-208 | splitting the formatted setting gives the words of the input, each once, strictly sorted |
| SettingList.SameFormatIffSameTokens | client_config.go:193-208 | two inputs are formatted alike exactly when they have the same words |
| SettingList.OrderIrrelevant | client_config.go:194-199 | order and repetition of the values do not matter |
| SettingList.GroupingIrrelevant | client_config.go:195-198 | nor does how the words are grouped into values |
| SettingList.FormatIdempotent | client_config.go:193-208 | formatting what was formatted changes nothing |
| JsonText.ReadWrite | flake/lock_info.go:102-107 | reading a string that was written, with its escapes, gives it back |
| JsonText.ReadWriteArray | flake/lock_info.go:102-107 | the same for an array of strings |
| JsonContents.WrittenCharacter | flake/lock_info.go:102-107 | how each character of a string is written |
| JsonGrammar.ReadsExactly | flake/lock_info.go:116-134 | a text without trailing space is read as a string or an array exactly when the grammar of RFC 8259 derives it as one |
| JsonContents.ReadsContents | flake/lock_info.go:116-134 | and it is read as what it stands for along the grammar: a string as its text, an array as its elements in order, whatever space is between them |
| JsonContents.PlainContents | flake/lock_info.go:116-122 | a character that is not escaped stands for itself |
| JsonContents.EscapeContents | flake/lock_info.go:116-122 | what the one-letter escapes stand for |
| JsonContents.CodeContents | flake/lock_info.go:116-122 | a numbered escape stands for the character of that number |
| JsonContents.PairContents | flake/lock_info.go:116-122 | two that form a surrogate pair stand for one character |
| JsonContents.HalfContents | flake/lock_info.go:116-122 | half a pair stands for the replacement character |
| LockGraph.TextOfInput | flake/lock_info.go:102-107 | the text of an input is read back as the JSON value that the document model takes it for |
| LockGraph.TextRoundTrip | flake/lock_info.go:102-138 | an input written, with any white space around it, is read back with its variant, an empty follows path included |
| LockGraph.TextsAccepted | flake/lock_info.go:109-138 | exactly the texts that are, once trimmed, a JSON string or a JSON array of strings and nulls are read, as a direct edge or a follows path; an empty text and one that begins otherwise fail |
| LockGraph.InputTextRead | flake/lock_info.go:109-138 | every text is read as the input that its JSON value says, or not at all |
| LockGraph.NodeRoundTrip | flake/lock_info.go:22-60 | a node survives up to its empty collections |
| LockGraph.InfoRoundTrip | flake/lock_info.go:9-60 | reading what was written gives the graph back, up to empty collections becoming nil |
| LockGraph.EncodeNormal | flake/lock_info.go:22-40 | writing a graph that was read back writes the same document |
| LockGraph.SameDocumentIffSameNormal | flake/lock_info.go:9-40 | two graphs are written alike exactly when they differ only in empty collections |
| LockGraph.Reencode | flake/lock_info.go:22-60 | whatever document a graph was read from, writing and reading it again is stable |
| LockGraph.FlakeDefaultsToTrue | flake/lock_info.go:42-60 | at every node read, the flake flag is true unless the document says false |
| LockGraph.NodeRead | flake/lock_info.go:20-60 | for every document: a node is read from it exactly when the members inputs, original, locked, flake and parent say so, edge by edge and element by element; null is the default node |
| LockGraph.NodesAccepted | flake/lock_info.go:20-60 | exactly which documents are read as nodes |
| LockGraph.OtherMembersIgnored | flake/lock_info.go:20-40 | members of other names do not matter, nor does null in place of a missing one |
| LockGraph.InfoRead | flake/lock_info.go:9-18 | for every document: the graph read is the one that its version, root and nodes say |
| LockGraph.LockInput.GetNode | flake/lock_info.go:77-84 | the node of a direct edge, and nothing of a follows edge |
| LockGraph.LockInput.GetFollows | flake/lock_info.go:86-97 | the path of a follows edge in a slice of the caller's own |
| LockGraph.LockInput.UnmarshalJSON | flake/lock_info.go:109-138 | trims the text and goes by its first character; the receiver becomes what the text says, or stays as it was on an error, when no input is what the text says |
| LockGraph.LockNode.UnmarshalJSON | flake/lock_info.go:42-60 | exactly null and objects with members of the right kinds are read; the receiver becomes the node that the document says, member by member, or stays as it was |
| LockGraph.ThroughJSON | flake/lock_info.go:99-138 | written to text and read into another variable, an input keeps its variant and contents |

## Left out

- The Nix libraries, the C++ exceptions caught by the C layer, and the generated call wrappers of pkg/raw/raw.go: a call either succeeds or fails.
- C strings end at a NUL and Go strings may hold invalid UTF-8; strings are sequences of characters, and `strconv.Quote` is modelled on valid ones.
- Lists of 2^32 elements or more, whose lengths and indices wrap in 32 bits.
- Pointers into shared or cyclic Go data: pointees are part of the variable that holds the pointer.
- Decoding reads a type and then a value by two raw calls in the getters; they are one call of the schedule.
- Struct tags are reduced to the attribute name, the skip flag and the required flag of a field.
- Rounding to 32-bit floats is a parameter, and floats are otherwise opaque apart from their size.
- Evaluators.Evaluator.Unmarshal: error wording is not modelled, only the kind of error and its path.
- Named Go types are identified with their kinds; channels, functions and complex numbers are one unsupported kind.
- The Apply and Copy builders, CallMulti beyond its argument array, AttrLazy and the remaining straight-line operations of eval.
- `flake.New` beyond the handle it makes and what that borrows; a flake closed early by the caller.
- ClientRuns.ClearedAndFreedAfterReceipt: the context made for interrupting the store, closed as the call returns, is not tracked.
- ClientRuns.BoundedWork: fairness of the Go scheduler is outside the model; with NoDeadlock it says that a call which keeps being scheduled returns.
- ClientLifetime.Client.CloseLocked: native frees return nothing, so the joined close errors never occur and are not modelled.
- `ClientConfig.Serialize` and the order in which settings are applied: assignments of fields to keys.
- The locks of allocation maps: their methods are atomic here, and finalizers run between them.
- AllocMaps.PassValue: a zero-byte allocation is assumed to return a block, as glibc does; where it returns NULL the source panics.
- ResultArrays.ResultArray.Grow: an allocation above PTRDIFF_MAX is assumed to fail, as glibc's does; this is why the source's overflow test never succeeds.
- Blocks are numbered and never reused, so address reuse after a free is not modelled.
- LockGraph.InfoRoundTrip: above the inputs JSON is modelled as values, with unique and case-sensitive member names: the text of objects, numbers and raw attribute values is encoding/json's, and a nil raw attribute value, which is written as null, is not representable.
- JsonText.ReadWrite: characters are Unicode scalar values; encoding/json replaces invalid UTF-8 and unpaired surrogate escapes by U+FFFD, of which the model has the latter.
- File descriptors, daemon serving, log sinks, verbosity and log formats.
- Store operations, store options, the system tables and the settings packages.

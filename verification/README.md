# Verified model of dejima's contract checker and session client

dejima runs coding agents in containers ("islands") and attaches a terminal to them. This project models, in
Dafny, the parts of it whose correctness spans loops, retained state, cyclic graphs or many steps, and proves what
those parts are for. Check everything with `dafny verify dfyconfig.toml`.

What is modelled, one module per component:

- **Contract parity** (`ParitySchema`, `ParityGo`, `ParityCheck`, `ParityQuery`, over `Reachability` and `Texts`). The
  checker compares Go struct tags with documented OpenAPI properties. It walks four graphs that may be cyclic: `$ref`/`allOf`
  composition and struct embedding by recursion that cuts at names already open on the path, (struct, node) pairs by
  a memoised walk, and (function, mode) pairs by a worklist. Each walk is proved to return exactly what is reachable,
  and a run has no problems exactly when every reached pair agrees.
- **Streaming scanners** (`PasteScanner`, `PasteLaws`, `PasteSplits`, `AltScreen`, `BuildTails`, over `ByteStrings`
  and `Lines`). Each reads a stream in arbitrary chunks with a bounded memory. The alternate-screen watch and the
  build tail are proved to depend on the concatenated stream alone; the paste scanner conserves every byte, says why
  each withheld byte was withheld, and the two ways its detection depends on the cuts are stated exactly.
- **One attached session** (`Session`, `SessionLaws`, `SessionBytes`, `SessionOrder`, `SessionDrops`, `Attach`,
  `ClientPath`, `DroppedPaths`). A state machine over stdin chunks: upload confirm, attach minibuffer, summon and
  attach chords, and the paste scanner inside. Uploads are events; callback results, the alternate-screen flag and the
  clipboard are arbitrary. Proved over all runs: an upload exactly when the operator does one of three things, and a complete account of where
  every typed byte goes: sent, waiting, or spent on something that is named.
- **Reconnecting** (`Reconnecting`): the give-up counter and the backoff.
- **Gateway forwards** (`Tunnels`, `TunnelRuns`): the registry as a locked object, and every interleaving of open
  calls (which are not atomic), lookups, counts, shutdowns and process deaths.
- **Wrapped errors** (`ErrorLines`), **the escape-sequence guard** (`EscapeGuard`), **snapshot names**
  (`Snapshots`) and **byte-count units** (`HumanBytes`).

Code that updates objects or loops over variables is modelled by classes and methods with loops, each proved against
a specification function; the laws are then proved of those functions. `Scan`, for instance, is what one call of the
paste scanner means: the list of segments its input falls into. Recursion and expressions are functions.

Claims that look natural but are false of the code are stated as such, each with an input or run that shows it and the
exact condition under which the code does meet it:

- a dangling reference met by a struct field can go unreported (`ParityCheck.DanglingFieldsUnseen`,
  `DanglingFieldPassedIff`, `SchemaCheck.DanglingReportedIff`);
- whether a dropped file is seen depends on where reads end (`PasteSplits.SplitSeenIff`, over every cut;
  `LoneEscapeMisses`, `NewlineCutMisses`);
- a file whose name ends in an escaped space or quote is not recognised (`DroppedPaths.TrailingSpaceMissed`,
  `EscapedDropSeenIff`, `EscapedBareDropSeenIff`), though from a file URL it is (`UrlDropSeenIff`);
- a drop can overtake another of the same read, which is then forgotten (`SessionDrops.TwoDropsLoseOne`,
  `BareDropLosesPaste`, `ForgottenIff`);
- the attach chord sends bytes ahead of others still held (`SessionOrder.ChordOvertakes`, `ChordOvertakesIff`);
- an island's own volumes can be listed as deletable snapshots (`Snapshots.LiveVolumesCalledOrphan`,
  `VolumeCalledOrphanIff`);
- a forward just returned can be closed at once by an overlapping open (`TunnelRuns.OverlapHappens`, `RunningIff`).

## Model

| member | source | states |
|---|---|---|
| ParitySchema.RefNameSuffix | sdk/openapi_field_parity.py:227 | the name taken from a reference is its longest suffix without a slash |
| ParitySchema.SchemaObject | sdk/openapi_field_parity.py:215-241 | flattening a node terminates for cyclic documents (measure: names not yet open, then node) and yields the properties and verdict that SchemaObjectExact characterises |
| ParitySchema.ObjectSound | sdk/openapi_field_parity.py:215-241 | from any set of open names, each property returned is declared, with that very sub-schema, by a reachable node, and a failure has a reachable dangling reference |
| ParitySchema.ObjectComplete | sdk/openapi_field_parity.py:226-241 | whatever lies at the end of a walk clear of the open names is found |
| ParitySchema.LeaveName | sdk/openapi_field_parity.py:227-234 | a walk behind a reference can be shortened so that it never comes back to that name: cutting there loses nothing |
| ParitySchema.SchemaObjectExact | sdk/openapi_field_parity.py:215-241 | the properties are exactly those declared by nodes reachable through `$ref`, `allOf`, `anyOf`, `oneOf`; resolvable if and only if no reachable reference dangles |
| ParitySchema.ValueWins | sdk/openapi_field_parity.py:235-241 | a property declared more than once has the sub-schema of the node itself, else that of the last of its parts that has it |
| ParitySchema.PeelSchema | sdk/openapi_field_parity.py:244-260 | the loop computes the peeling that HopIff and PeelInStep characterise, and ends at a mapping or not at all |
| ParitySchema.HopIff | sdk/openapi_field_parity.py:246-259 | one level of peeling leads to c exactly when the node, or what its one reference names, is a mapping whose items or additionalProperties is the mapping c |
| ParityCheck.PeelInStep | sdk/openapi_field_parity.py:244-260 | for every Go type, peeling a schema by the wrappers read off the type's spelling ends at b if and only if the schema describes that type over b |
| ParityCheck.LeadsByIff | sdk/openapi_field_parity.py:329-340 | for a shared field of any spelled type, the pair looked into is (k, n) if and only if the pair's own schema resolves, the type's base name denotes k where the tag is held, the property's schema describes the type over n, and n documents something |
| ParityCheck.FindingsExact | sdk/openapi_field_parity.py:310-326 | what is found about a pair is exactly what is due: a dangling schema, or else each carried tag not documented and, unless an embed is out of sight, each documented property not carried |
| ParityCheck.ComparedExact | sdk/openapi_field_parity.py:327 | the fields counted are the names that either side has, none if the schema dangles |
| ParityGo.PeelGo | sdk/openapi_field_parity.py:177-195 | the loop ends and separates base type and wrappers of any text |
| ParityGo.PeelUndoesSpell | sdk/openapi_field_parity.py:177-195 | for every nesting of pointers, slices and maps, peeling its Go spelling gives back the base name and the wrappers outermost first |
| ParityGo.PeelIgnoresSpace | sdk/openapi_field_parity.py:182 | white space around a type expression does not matter |
| ParityGo.ResolveGoType | sdk/openapi_field_parity.py:198-209 | the struct found is the one the base name denotes: of the holder's directory, or of the one imported under its qualifier inside the module; none is found only when none is denoted |
| ParityGo.ResolveSpelledIff | sdk/openapi_field_parity.py:198-209 | for every spelled type, resolution gives a struct if and only if the base name denotes it, and always the type's wrappers |
| ParityGo.GoFields | sdk/openapi_field_parity.py:278-302 | inlining embeds terminates on cyclic embedding and yields the tags and verdict that GoFieldsExact characterises |
| ParityGo.InlinedSound | sdk/openapi_field_parity.py:278-302 | from any set of open structs, each tag comes from the struct named as its holder, reachable through embeds |
| ParityGo.InlinedComplete | sdk/openapi_field_parity.py:284-301 | nothing at the end of a walk clear of the open structs is lost |
| ParityGo.GoFieldsExact | sdk/openapi_field_parity.py:278-302 | the tags are exactly those held by structs reachable through resolvable embeds, each with a true origin; complete if and only if none of them has an unresolved embed |
| ParityGo.OriginWins | sdk/openapi_field_parity.py:286-302 | of several fields that give a tag, own or embedded, the last decides its type and holder |
| ParityCheck.AgreesBySets | sdk/openapi_field_parity.py:310-325 | the computed sets decide agreement, which is defined by reachability alone |
| ParityCheck.NoFindingsIffAgrees | sdk/openapi_field_parity.py:310-326 | a pair has nothing to report if and only if its schema has no dangling reference, every carried tag is documented and, unless an embed is out of sight, every documented property is carried |
| ParityCheck.FieldSeenIff | sdk/openapi_field_parity.py:329-340 | a shared struct field is looked into if and only if its schema peels as deep as its type and then documents a property |
| ParityCheck.DanglingFieldPassedIff | sdk/openapi_field_parity.py:334-339 | a field that meets a dangling reference is silently passed over if and only if the reference stops the peeling or what is left documents nothing |
| ParityCheck.DanglingFieldsUnseen | sdk/openapi_field_parity.py:334-339 | false claim: every dangling reference met is reported; a document with one field for each way of being passed over, whose pair is clean |
| ParityCheck.DanglingRunIsClean | sdk/openapi_field_parity.py:342-351 | and no other pair of it is reached, so the whole run reports nothing |
| ParityCheck.SchemaCheck.DanglingReportedIff | sdk/openapi_field_parity.py:304-351 | after a run, a dangling reference is behind a report if and only if the schema of some reached pair leads to it |
| ParityCheck.SchemaCheck.FieldReportedIff | sdk/openapi_field_parity.py:329-351 | after a run, the pair of a field whose peeled schema dangles is reported if and only if that schema documents a property or the pair is itself a root |
| ParityCheck.ReportUndocumented | sdk/openapi_field_parity.py:316-320 | one problem per undocumented tag, no other, all under the given path |
| ParityCheck.ReportStale | sdk/openapi_field_parity.py:322-326 | one problem per stale property, no other |
| ParityCheck.ReportDrift | sdk/openapi_field_parity.py:314-326 | the lines of a resolvable pair are exactly its findings, each once; nothing is called stale when an embed is out of sight |
| ParityCheck.LedgerAppend | sdk/openapi_field_parity.py:305-327 | recording one pair keeps the books: pairs distinct, problems exactly the findings of the bound pairs, counted once, and the field count theirs |
| ParityCheck.SchemaCheck.Record | sdk/openapi_field_parity.py:308-327 | a pair's outcome is added under its own path and keeps the books |
| ParityCheck.SchemaCheck.Compare | sdk/openapi_field_parity.py:304-340 | one comparison terminates (measure: pairs not yet bound), binds only pairs reachable from its own, explores all it binds, and labels each new problem with a path of shared fields that leads to it |
| ParityCheck.SchemaCheck.FollowShared | sdk/openapi_field_parity.py:329-340 | after the last loop every pair a shared field leads to is bound |
| ParityCheck.SchemaCheck.Run | sdk/openapi_field_parity.py:342-351 | the bound pairs are exactly those reachable from same-named roots; the problems are exactly what is due about them, each once, and none if and only if every reached pair agrees; every problem is labelled from a root; the structs called unbound are exactly the exported non-empty API structs no pair covers, each once |
| ParityCheck.SchemaCheck.CompareRoots | sdk/openapi_field_parity.py:343-346 | its first loop, which binds exactly what the roots reach |
| ParityCheck.SchemaCheck.FindUncovered | sdk/openapi_field_parity.py:347-351 | its second loop, which lists those structs |
| ParityQuery.QueryParamsRead | sdk/openapi_field_parity.py:373-401 | the worklist drains, and the result is exactly the parameters read by the (function, mode) pairs reachable from the handler |
| ParityQuery.Enqueue | sdk/openapi_field_parity.py:394-400 | a call hands on the query map or else the request, and every callee that gets one is queued |
| ClientPath.UnescapeShellPath | cmd/dejima/paste_intercept.go:219-232 | the loop and its shortcut both compute the unescaping that the next two rows characterise |
| ClientPath.UnescapeInvertsEscape | cmd/dejima/paste_intercept.go:208-232 | unescaping inverts every escaper that escapes all backslashes and any choice of the other shell bytes |
| ClientPath.UnescapeIdentityIff | cmd/dejima/paste_intercept.go:213-215 | a path is left as it is if and only if no backslash precedes a byte of the set |
| ClientPath.BareNeedsPath | cmd/dejima/paste_intercept.go:261-284 | a lone byte and what does not begin like a path are never taken for a typed drop |
| DroppedPaths.EscapedDropSeenIff | cmd/dejima/paste_intercept.go:193-251 | a file is recognised from its escaped path, whatever the terminal escapes and whatever white space and quotes stand around, if and only if its name holds no newline, ends in neither white space nor a quote, and it is a regular file |
| DroppedPaths.EscapedBareDropSeenIff | cmd/dejima/paste_intercept.go:253-294 | an absolute path typed by the terminal with no paste around it is recognised if and only if the same holds, it is absolute to the program and more than a lone slash |
| DroppedPaths.HomeDropSeenIff | cmd/dejima/attach_file.go:136-147 | a path that begins with `~/` is recognised as the file in the home directory under the same conditions |
| DroppedPaths.MinibufferExpands | cmd/dejima/attach_file.go:136-147 | in the minibuffer the home directory stands for the tilde, alone or before a slash, and any other path is itself |
| DroppedPaths.UrlDropSeenIff | cmd/dejima/paste_intercept.go:196-205 | from a file URL, quoted or not, that decodes to an escaped form of the path, or is one where it does not decode, a file of any name is recognised if and only if the URL holds no newline and it is regular |
| DroppedPaths.UrlBareDropSeenIff | cmd/dejima/paste_intercept.go:276-294 | the same for a URL typed by the terminal, the path being absolute |
| DroppedPaths.CoreIsCut | cmd/dejima/paste_intercept.go:194-195 | the three trims take off white space and quotes around a text, and of the text only those at its end |
| DroppedPaths.TrailingSpaceMissed | cmd/dejima/paste_intercept.go:193-206 | false claim: escaping brings the file back; for "/a " escaped another path is looked up |
| DroppedPaths.UnescapeCut | cmd/dejima/paste_intercept.go:219-232 | an escaped path cut anywhere unescapes to a proper prefix of the path, at most with the cut escape's backslash behind it |
| PasteScanner.EarliestIsFirst | cmd/dejima/paste_intercept.go:149-163 | the marker found is the first of all, none occurs before it, the paste marker wins at its own position |
| PasteScanner.Scanner.EarliestMarker | cmd/dejima/paste_intercept.go:152-163 | the search loop finds that marker |
| PasteScanner.Scanner.Holdback | cmd/dejima/paste_intercept.go:165-187 | the bytes held are the longest suffix of two or more that begins a marker |
| PasteScanner.HoldUpTo | cmd/dejima/paste_intercept.go:165-187 | no longer suffix of that kind exists |
| PasteScanner.Scanner.Process | cmd/dejima/paste_intercept.go:61-147 | output, callbacks and new state of a call are those of the segments its input falls into |
| PasteScanner.Scanner.Turn | cmd/dejima/paste_intercept.go:66-145 | one turn of the loop contributes its segments and either returns or leaves less to scan |
| PasteScanner.Scanner.TurnInPaste | cmd/dejima/paste_intercept.go:110-144 | inside a paste: hold, give up, or close it |
| PasteScanner.Scanner.FinishIdle | cmd/dejima/paste_intercept.go:69-91 | the remainder without a marker is offered only if nothing was forwarded, and otherwise forwarded but for a possible start of a marker |
| PasteScanner.Scanner.ClosePaste | cmd/dejima/paste_intercept.go:125-144 | a whole paste is swallowed or put together again byte for byte |
| PasteLaws.CallConserves | cmd/dejima/paste_intercept.go:41-44 | whatever the callbacks answer, bytes held before plus bytes read are the bytes of the segments plus the bytes held after |
| PasteLaws.SwallowOnlyWithCause | cmd/dejima/paste_intercept.go:51-60 | a withheld segment is a configured key, a whole bracketed paste that names a local file, or a marker-free remainder that does, the last of its call, with nothing forwarded before it |
| PasteLaws.CallsAnswered | cmd/dejima/paste_intercept.go:76-102 | the k-th callback of a call gets the k-th answer, and what is withheld follows it |
| PasteLaws.ScanSettles | cmd/dejima/paste_intercept.go:83-123 | between calls: outside a paste at most a proper prefix of a marker, two bytes or more, is held; inside one at most 8192 bytes without newline or end marker |
| PasteLaws.SettledDefault | cmd/dejima/paste_intercept.go:304-315 | with any keys the program configures, what is held outside a paste is two to five bytes of the paste marker |
| PasteLaws.HeldIsLongest | cmd/dejima/paste_intercept.go:83-90 | what a call holds outside a paste is the longest suffix of all bytes held and read that could still become the paste marker, unless the call ended in a paste given up or in bare text taken as a drop |
| PasteLaws.SingleByteNeverHeld | cmd/dejima/paste_intercept.go:83-86 | from the idle state a single key is never held back |
| PasteLaws.ReadsConserve | cmd/dejima/paste_intercept.go:44-60 | over any sequence of reads the segments and what is held are the input, the state stays settled and every withheld segment has its cause |
| PasteLaws.PassThroughIff | cmd/dejima/paste_intercept.go:42-43 | over any reads and any callbacks, output plus held bytes equal the input if and only if no callback claimed to have handled anything |
| PasteLaws.PassThrough | cmd/dejima/paste_intercept.go:42-43 | in particular with callbacks that decline |
| PasteSplits.ProgramIsSeparate | cmd/dejima/paste_intercept.go:27-30 | no key the program configures lies inside the paste marker |
| PasteSplits.EndFound | cmd/dejima/paste_intercept.go:111 | the end marker cannot begin inside itself, so it is found where it is |
| PasteSplits.SplitPasteSeen | cmd/dejima/paste_intercept.go:110-136 | however a paste is cut into reads, if every cut is safe the file is offered just as if it had come in one: same callback, same bytes forwarded, nothing held |
| PasteSplits.StillWatchedIff | cmd/dejima/paste_intercept.go:112-123 | after a read that ends inside a paste it is still watched if and only if what came of it is one line of at most 8192 bytes; else all of it has been sent and nothing asked |
| PasteSplits.LoneEscapeMisses | cmd/dejima/paste_intercept.go:83-86 | when the first read brings the ESC alone nobody is asked about the paste, whatever its content and however the rest is cut |
| PasteSplits.SplitSeenIff | cmd/dejima/paste_intercept.go:110-187 | false claim: detection does not depend on where reads end; over every way of cutting a droppable paste into reads and any callbacks, the file is asked about if and only if no cut falls behind the ESC alone and none where more than one line or 8192 bytes of the content have come |
| PasteSplits.NewlineCutMisses | cmd/dejima/paste_intercept.go:112-121 | the content "/f" and a newline: seen in one read, missed when a read ends behind the newline |
| Attach.AttachState.Feed | cmd/dejima/attach_file.go:108-134 | the editing loop computes the outcome and line that EditMeans and StripTakesMarkers characterise |
| Attach.EditMeans | cmd/dejima/attach_file.go:108-134 | an Enter that comes before any Esc and Ctrl-C submits, an Esc or Ctrl-C before any Enter cancels, and the line is what is left of the printable bytes when every erase, read from the end, takes the nearest one free and a clear takes all |
| Attach.StripTakesMarkers | cmd/dejima/attach_file.go:85-93 | stripping takes out the paste markers, wherever they stand between bytes without an escape, and nothing else |
| Attach.EditAppend | cmd/dejima/attach_file.go:108-134 | where one chunk ends and the next begins does not matter to the editor |
| Attach.PastedPathSubmitted | cmd/dejima/attach_file.go:85-93 | a path pasted in markers and entered is submitted as it is |
| Session.SessionConn.ResolveUpload | cmd/dejima/main.go:2587-2611 | the confirm is closed; yes uploads that file and sends the rest, anything else sends the paste and the keys |
| Session.SessionConn.FinishAttach | cmd/dejima/main.go:2553-2570 | only a regular file at the entered path is uploaded |
| Session.SessionConn.StepAttach | cmd/dejima/main.go:2572-2582 | a chunk edits the open line, or closes it |
| Session.SessionConn.RunCallbacks | cmd/dejima/main.go:2659-2700 | uploads, clipboard reads and the pending confirm that a scan's callbacks leave |
| Session.SessionConn.HandleChunk | cmd/dejima/main.go:2621-2707 | confirm, minibuffer, chords and scanner claim a chunk in that order |
| Session.SessionConn.Run | cmd/dejima/main.go:2613-2709 | the whole loop refines the step relation, up to the first reason to end |
| SessionLaws.EndedIff | cmd/dejima/main.go:2613-2709 | over any script the session ends for a reason if and only if something that happens while it runs has that reason; a read has one only with a summon chord that no confirm, minibuffer or earlier attach chord claims |
| SessionLaws.ModeIsTraced | cmd/dejima/main.go:2625-2655 | over all runs, the pending upload is the last plain-shell drop of the read before, and a line is open if and only if it is what is left of the bytes typed since a chord, none of which ends it |
| SessionLaws.UploadIffConsent | cmd/dejima/main.go:2549-2611 | over all runs, a file is uploaded in a read if and only if in it the operator entered the path of that regular file in the minibuffer, with no Esc or Ctrl-C before the Enter, or answered u, U, y or Y to the confirm the read before had opened about it, or dropped it onto a full-screen program; with paste upload off only the first |
| SessionLaws.ScanUploadsOnlyDrops | cmd/dejima/paste_confirm.go:43-57 | during a scan only a drop onto a full-screen program uploads, and only with paste upload on |
| SessionLaws.InjectIffStaged | cmd/dejima/main.go:2520-2527 | a path is pasted to the agent right after an upload or a clipboard image was staged under it, and only then |
| SessionLaws.SendsAfterStaging | cmd/dejima/main.go:2587-2704 | what a read without an attach chord sends comes after everything it staged |
| SessionLaws.PlayIsRun | cmd/dejima/main.go:2613-2709 | what the session loop does up to and with any read, one that summons included, is a run of those laws, and the read's events are the loop's |
| SessionLaws.LoopUploadsIff | cmd/dejima/main.go:2613-2709 | so, whatever happened on its channels, an upload of a file is among the loop's events if and only if in one of its reads the operator did one of those three things about it |
| SessionOrder.ScanInOrderIff | cmd/dejima/main.go:2655-2704 | one read reaches the agent whole and in order if and only if no callback handled anything |
| SessionOrder.SessionInOrder | cmd/dejima/main.go:2655-2704 | over any session of such reads the agent has exactly what was typed, in order, but for the bytes still held |
| SessionOrder.OffHandledIff | cmd/dejima/paste_confirm.go:25-36 | with paste upload off a callback handles something in a read if and only if an image is read from the clipboard |
| SessionOrder.ChordOvertakesIff | cmd/dejima/main.go:2639-2653 | false claim: the attach chord keeps the order; its prefix is sent while earlier bytes stay held, and the order survives if and only if the two may be swapped |
| SessionOrder.ChordOvertakes | cmd/dejima/main.go:2639-2653 | a run of two reads from the start in which it does not: "x" reaches the agent before the ESC and "[" typed earlier |
| SessionBytes.ScanAccount | cmd/dejima/main.go:2657-2704 | for any callback results: bytes held and read are, byte value by byte value, the bytes sent, waiting, and spent on handled keys, uploaded pastes and overtaken confirms |
| SessionBytes.SpentForSomething | cmd/dejima/main.go:2659-2700 | keys are spent in a scan if and only if an image was read, pastes if and only if a file was uploaded |
| SessionBytes.PendingIsLastTaken | cmd/dejima/main.go:2678-2682 | what a scan leaves pending is the last drop it asked about |
| SessionBytes.ReadAccount | cmd/dejima/main.go:2621-2707 | the same account for every read in every mode: confirms, minibuffer, chords, summons |
| SessionBytes.SessionAccount | cmd/dejima/main.go:2613-2709 | over every run of a connection: what was typed is what the agent got, what waits and what was spent; no byte is lost, doubled or made up |
| SessionBytes.LoopAccount | cmd/dejima/main.go:2321-2382 | over all connections of a session the same, with its two losses named: what waited when a connection ended, and what was typed while the next was dialled |
| SessionBytes.ResolvedSends | cmd/dejima/main.go:2587-2611 | a yes costs the agent the paste and the key that said it, any other key nothing |
| SessionDrops.AnyIsRead | cmd/dejima/paste_intercept.go:61-147 | any bytes can be taken apart into pastes and keys with text between them, and a rest without marker or a paste left open |
| SessionDrops.StreamMeans | cmd/dejima/paste_intercept.go:61-147 | what a scan forwards, asks and holds is the sum of what the parts come to |
| SessionDrops.AsIfIdle | cmd/dejima/paste_intercept.go:61-63 | a call does what it would do in the idle state with the held bytes in front of the read, so a paste may straddle reads |
| SessionDrops.DropsInOneRead | cmd/dejima/main.go:2655-2704 | for any read in a plain shell, from any state of the scanner: nothing is uploaded, the last file dropped is pending, and the earlier ones are forgotten |
| SessionDrops.ForgottenIff | cmd/dejima/main.go:2678-2682 | no drop of a read overtakes another if and only if the read has at most one: a paste that names a file, or bare text that does behind items of which nothing reaches the agent |
| SessionDrops.NothingForgotten | cmd/dejima/paste_confirm.go:43-57 | with paste upload off, or on a full-screen program, none ever does |
| SessionDrops.TwoDropsLoseOne | cmd/dejima/main.go:2678-2682 | false claim: every drop a read reports is asked about; of two pastes in one read the first is neither uploaded nor sent nor pending |
| SessionDrops.BareDropLosesPaste | cmd/dejima/main.go:2678-2682 | and so is a paste with bare text behind it that names another file |
| SessionBytes.MinibufferSendsNothing | cmd/dejima/main.go:2629-2634 | while the minibuffer is open nothing typed reaches the agent |
| Reconnecting.BackoffStep | cmd/dejima/main.go:2420-2422 | doubling below five seconds gives 250 times 2 to the power min(k, 5) milliseconds, at most eight seconds |
| Reconnecting.ReconnectSession | cmd/dejima/main.go:2396-2424 | the first wait that settles the matter decides: a lost caller or terminal, Ctrl-C, a dial that found the session or found it gone; the k-th dial came after that backoff, whatever was typed meanwhile |
| Reconnecting.RunSessionLoop | cmd/dejima/main.go:2332-2382 | the loop gives up if and only if the last four connections dropped within two seconds each, is still dialling if and only if a drop short of that is not settled, and otherwise goes on exactly while it gets a new connection |
| Reconnecting.FourShortIff | cmd/dejima/main.go:2180-2185 | the counter is the length of the current run of short connections |
| AltScreen.AltScreenWatch.Observe | cmd/dejima/altscreen.go:34-64 | two loops and a seven-byte tail keep the state that WatchRefinesStream characterises |
| AltScreen.LastMarkerIs | cmd/dejima/altscreen.go:31-33 | the last marker of a stream is well defined: enters and leaves never start at one place |
| AltScreen.LastAcrossSeam | cmd/dejima/altscreen.go:55-64 | a marker split at the seam is caught and rescanning a short one held in the tail is harmless |
| AltScreen.WatchRefinesStream | cmd/dejima/altscreen.go:20-64 | for every chunking of every stream, active if and only if the last marker of the whole stream is an enter, and the tail is its last seven bytes |
| BuildTails.BuildTail.Write | cmd/dejima/buildtail.go:32-54 | one write's effect on the two fields, for TailRefinesStream |
| BuildTails.BuildTail.Render | cmd/dejima/buildtail.go:58-66 | the report, split at its newlines, gives back the kept lines and the unfinished one |
| BuildTails.ReportReadsBack | cmd/dejima/buildtail.go:56-66 | whatever the writes, the report split at its newlines is exactly the last max non-blank complete lines of the whole stream and the unfinished one, if not blank |
| BuildTails.TailRefinesStream | cmd/dejima/buildtail.go:8-27 | for every sequence of writes the lines are the last non-blank complete ones of the whole stream, the part what follows its last newline |
| BuildTails.KeptIff | cmd/dejima/buildtail.go:32-54 | a complete line of the stream is kept, unchanged and in its place, if and only if it is not blank and fewer than max such lines follow it |
| BuildTails.SameBytesSameReport | cmd/dejima/buildtail.go:20-22 | so writes of the same bytes give the same report, never more than max lines |
| ErrorLines.WrapWords | cmd/dejima/agent_error_lines.go:45-61 | the loop computes greedy wrapping |
| ErrorLines.FieldsUndoJoin | cmd/dejima/agent_error_lines.go:46-58 | splitting joined words gives the words back, multi-byte white space included |
| ErrorLines.GreedyIsBreaking | cmd/dejima/agent_error_lines.go:52-59 | greedy keeps the word sequence and every shared line fits |
| ErrorLines.GreedyIsOptimal | cmd/dejima/agent_error_lines.go:42-61 | no allowed breaking of the same words uses fewer lines |
| ErrorLines.WrapIsFaithfulAndOptimal | cmd/dejima/agent_error_lines.go:42-61 | for every text: reading the lines back gives exactly its words, a line of several words fits, no allowed breaking is shorter |
| ErrorLines.AgentErrorLines | cmd/dejima/agent_error_lines.go:25-40 | all wrapped lines when they are at most six, else the first six with the sixth marked |
| ErrorLines.PaneShowsError | cmd/dejima/agent_error_lines.go:16-40 | up to six lines show exactly the words of the error, in order; of more, the first six show a proper prefix of them and the mark; a line of several words fits 58 columns |
| ErrorLines.LinesKeepApart | cmd/dejima/agent_error_lines.go:27-38 | no shown line joins words of two lines of the error, and each of its lines takes as few as the width allows |
| Tunnels.KeysDiffer | cmd/dejima/gateway_tunnel.go:53 | two agents share a key only if an island name holds a slash |
| Tunnels.Host.Close | cmd/dejima/gateway_forward.go:86-97 | closing ends the process, and nothing happens to one already gone |
| Tunnels.TunnelManager.Get | cmd/dejima/gateway_tunnel.go:55-87 | a dead forward is dropped, a live one that does not answer is closed and dropped, else it is returned |
| Tunnels.TunnelManager.Put | cmd/dejima/gateway_tunnel.go:89-103 | the agent's previous forward is closed, the new one filed with its port |
| Tunnels.TunnelManager.Count | cmd/dejima/gateway_tunnel.go:113-124 | every dead entry and no live one is dropped, in any order of iteration |
| Tunnels.TunnelManager.CloseAll | cmd/dejima/gateway_tunnel.go:126-135 | every registered process and no other is ended |
| Tunnels.TunnelManager.Start | cmd/dejima/gateway_forward.go:180-257 | it gives a forward if and only if the endpoint resolves and is enabled, the preferred port or some other is free, and known hosts, process, binding and gateway all succeed; on the preferred port when free; any other exit leaves no process of its own running |
| Tunnels.TunnelManager.OpenGateway | cmd/dejima/gateway_tunnel.go:137-157 | alone, an open reuses a live forward or returns one if and only if a start succeeds, on the agent's last port when that is free, registered and running |
| TunnelRuns.StepKeeps | cmd/dejima/gateway_tunnel.go:61-157 | every step of every call, lookup, count, shutdown and process death keeps the registry's invariant |
| TunnelRuns.RegistrySafe | cmd/dejima/gateway_tunnel.go:89-103 | in every interleaving, at most one registered forward per agent runs, entries sit under their own key with their port remembered, a failed start has left nothing running, and no process is unowned |
| TunnelRuns.ReturnedRegisteredOrDead | cmd/dejima/gateway_tunnel.go:137-157 | what a call returned is the agent's registered forward for as long as its process runs |
| TunnelRuns.RegisterReplaces | cmd/dejima/gateway_tunnel.go:91-103 | registering ends at most one process, the one filed under that agent |
| TunnelRuns.ShutdownLeaves | cmd/dejima/gateway_tunnel.go:126-135 | a shutdown leaves running exactly the forwards of opens still in flight |
| TunnelRuns.StepEndsIff | cmd/dejima/gateway_tunnel.go:55-135 | a registered, running forward goes on running if and only if the step is none of: its process dies, a shutdown, a lookup of its key that finds no answer, another forward registered under its key |
| TunnelRuns.RunningIff | cmd/dejima/gateway_tunnel.go:137-157 | over any run, it runs at a later moment if and only if no step in between was one of these |
| TunnelRuns.OverlapHappens | cmd/dejima/gateway_tunnel.go:144-155 | false claim: a returned forward is running; a run without deaths, shutdowns or unanswered lookups in which a call's forward, running when returned, is ended by an overlapping open |
| EscapeGuard.StepMeans | cmd/dejima/escseq.go:73-134 | the three states mean: nothing open, ESC just seen, an opened sequence in time |
| EscapeGuard.DroppedIff | cmd/dejima/escseq.go:83-134 | over any timed history a key is dropped if and only if it is no ESC and the keys since the latest ESC, each within 50 ms of the one before, form a non-empty prefix of intro, parameters, tail, or a lone tail |
| EscapeGuard.SplitSequenceSwallowed | cmd/dejima/escseq.go:93-131 | a split sequence (section 5.4 of ECMA-48) delivers its ESC only and leaves the guard idle |
| EscapeGuard.SlowKeyDelivered | cmd/dejima/escseq.go:49-57 | a key that comes more than 50 ms after the one before is delivered |
| Snapshots.ClassifySnapshotVolumes | cmd/dejima/doctor_snapshots.go:68-93 | the two loops list the orphans and count the live ones of the listed names |
| Snapshots.NamesHold | cmd/dejima/doctor_snapshots.go:68-79 | the names taken are what is left of the lines that are not blank |
| Texts.TrimCuts | cmd/dejima/doctor_snapshots.go:72 | trimming takes off nothing but the characters at the two ends that are to go |
| Snapshots.ClassesPartition | cmd/dejima/doctor_snapshots.go:81-92 | orphans, live and unparsable ones are all the marker-bearing names |
| Snapshots.IslandBackIff | cmd/dejima/doctor_snapshots.go:97-113 | the island is recovered if and only if no later marker starts in the rest of the name |
| Snapshots.SnapshotNameRoundTrips | cmd/dejima/doctor_snapshots.go:95-113 | for every island name, ones ending in "-home" or holding the marker included, a snapshot's name gives the island back |
| Snapshots.SnapshotOrphanIff | cmd/dejima/doctor_snapshots.go:30-32 | a listed snapshot is called an orphan if and only if its island's home volume is not listed |
| Snapshots.VolumeRead | cmd/dejima/doctor_snapshots.go:103-113 | a home or workspace volume is read as a snapshot of what precedes the last marker that starts, past the first character, in its island's name and a dash |
| Snapshots.VolumeCalledOrphanIff | cmd/dejima/doctor_snapshots.go:68-93 | false claim: only snapshots are listed for deletion; a listed home or workspace volume is if and only if it is so read and that island's home volume is not listed |
| Snapshots.LiveVolumesCalledOrphan | cmd/dejima/doctor_snapshots.go:81-91 | both volumes of the island "a-home-snap-b", alone on a host, are |
| HumanBytes.HumanSize | cmd/dejima/main.go:3409-3423 | for every 64-bit value the divisor never overflows, the unit index stays in the table and the number shown is at least 1 and below 1024 |
| HumanBytes.UnitUnique | cmd/dejima/main.go:3418-3422 | no other unit would do |

## Left out

- Parsing: Go source and YAML are parsed already (structs, schema nodes, calls); the parity script's tripwires and self-test are not modelled.
- Document shape: nodes sit in an arena, children before parents, so a YAML anchor that contains itself is excluded, and so is a named schema that is a bare scalar (the script would stop with an error on it).
- Order of reports: the script sorts names before it loops; the model leaves the order open, and its results hold for every order.
- Exported-name test: only ASCII capitals count as upper case in the model.
- PeelUndoesSpell: map keys whose own spelling holds a closing bracket are outside it, as the script's pattern misreads them.
- Silent skips: the script's comment promises that nothing is concluded from an unresolvable schema; the code skips such a field without a word, and the model follows the code.
- Files, URL decoding, the home directory, the clipboard, clocks, ssh and the daemon: parameters of the model, arbitrary in every theorem.
- Terminal echo, notices, prompts and window sizes: they carry no state the modelled code reads back.
- Callbacks: the model performs their effects after the scan that made them, from its list of calls; the scanner sees only their answers, so nothing can tell.
- SessionAccount: bytes are counted, not ordered, because a declined confirm sends a paste behind keys scanned earlier; SessionOrder gives the order where no callback acts.
- Reconnect wait: a comment at cmd/dejima/main.go:2408 says a key retries at once; the code starts the wait again, and the model follows the code.
- Goroutines: a call under the mutex and an atomic flag are single steps; fairness, liveness and the reader goroutine are not modelled.
- resolveGatewayTarget, known hosts, waiting for the port and the token in the URL: one yes-or-no each, or an arbitrary value.
- HumanSize: the quotient's rounding to one decimal is floating point and left out, so a value just below a unit may still print as 1024.0.
- Command wiring, onboarding, doctor text, API client and site scripts: branching over input and output without an invariant across functions.

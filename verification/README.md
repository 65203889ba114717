# Verified models of Agent Orchestrator's protocols

Dafny models of seven components of the repository, with proofs of what each of them is for.
Everything in the `.dfy` files is a model: the Go code itself is cited by path and line. To
check all of it: `dafny verify dfyconfig.toml`.

**Browser command broker** (`Broker*.dfy`). `BrokerProtocol` is a step system in which every
critical section, channel send, channel receive and `conn.Write` is one step, so a run is any
interleaving of any number of callers, connections and reply goroutines. `BrokerInvariant` and
`BrokerTheorems` hold over every run, and `BrokerOutcomes` traces what every caller returns with
back to the step that decided it. `BrokerObject` is the mutable object, each method proved
against the critical sections the step system uses.

**Protocol binding generator** (`Go*.dfy`, `StringOrder.dfy`). The compiler from JSON Schema
to Go declarations: `GoSchema`, `GoWiden` and `GoRender` are what it computes, `GoGenerator` the
object that computes it with loops over its table, its output and its growing list. `jsonKind`
takes the first definition of a name that a walk over a Go map meets, and may call itself for
ever: `GoKinds` says which answers it may give, rendering takes the answers as a parameter, and
`GoRuns` says which outputs a run with answers it may get can write. What holds of rendering
holds for every choice of answers.

What the types are for is stated on JSON values (`Json.dfy`), apart from the mapping:
`GoDecoding` has what draft-07 admits on one side and what `encoding/json` decodes on the
other, and joins them for one schema; `GoJoins`, `GoStructs` and `GoSound` do so for joined
fields, structs, unions, enums and aliases; `GoProgram` for whole files, with references
resolved through definitions on one side and through declarations on the other. `GoLimits` and
`GoLosses` hold the families of schemas on which it fails, and the values lost.

**Attachment store** (`Attachment*.dfy`). A directory is a map from names to inodes and from
inodes to bytes. `AttachmentRuns` interleaves any number of writers with removals and crashes.
`AttachmentStore` and `AttachmentOperations` are the methods, with every operation allowed to
fail and a history of all intermediate states; `AttachmentTeardown` is what import and
materialize mean and what they make of each other.

**Change-log poller and fan-out** (`Cdc*.dfy`). Runs of appends, deletions, seeks,
subscriptions and polls, a poll being one read and then one call of Publish an event with
anything in between (`CdcSeek` is what a seek leaves out); and the poller and broadcaster as
objects.

**Device-flow polling** (`DevicePlan.dfy`, `DeviceFlow.dfy`, `DeviceVerdicts.dfy`). Section 3.5
of RFC 8628 against a clock, with Go's 64-bit durations and their wrap-around. `DeviceVerdicts`
says what each end means in terms of the replies' own text.

**Installer** (`Installer*.dfy`, `SetupDirs.dfy`, `SetupPasscode.dfy`). One run as the list of
privileged commands it issues and the order they come in, a machine on which any command may
be refused, and the ancestor walk behind handing new directories to their owner.

**Two text codecs** (`Browser{Text,Escapes}.dfy`, `Pr{Ref,Forms,Escapes}.dfy`). Escaping of the
untrusted-content markers, and the parser and printer of pull request URLs.

Claims that turned out to hold only under a condition are stated with it, both ways, and with
inputs that break them: a write cut short on a connection that stays current
(`WireSplitsBack`, `PartialWriteGarbles`), definitions of one Go name that differ
(`OneTurnIffAgree`, `TwoOutputs`), a definition that wraps itself (`ReturnsUnlessItLoops`,
`NothingIsWritten`), three JSON names with one Go name (`FieldNamesDistinct`,
`ThreeSeparators`), a definition named like a union's tag type (`DeclaredOnce`,
`TagTypeTwice`), a start interval past 64 bits (`BoundedExactly`, `HugeIntervalWraps`,
`WrappedNeverStops`), an integer without a bounded format or several types at once
(`TypesDecodeExactly`), a uint64 joined with an int64 (`JoinDecodes`,
`WideIntegersLost`), a scalar type listed behind another (`KindsAgreeExactly`), a definition
that only names one written as raw JSON (`RawIsLost`) or is a list of anonymous objects
(`ObjectsAreLost`), an interrupted install (`DaemonInSync`, `InterruptedRunDoesNotConverge`),
and repeated suffixes or escapes in a pull request URL (`CanonicalIsFixed`,
`DoubledSuffixMoves`, `QuestionMarkMoves`). A start interval over a minute shrinks at the
first `slow_down` (`BackOffNeverShrinks`).

Where code and comments disagree the model follows the code:

- `backend/cmd/gencodexproto/main.go:768-770` says a second field of the same Go name stays
  reachable only as raw JSON; it is written as a field of its own with an underscore.
- `backend/cmd/gencodexproto/main.go:836-837` says named definitions are resolved one level;
  `jsonKind` calls itself, without a bound.
- `backend/cmd/gencodexproto/main.go:720-726` keeps the methods of raw JSON with an alias for a
  definition that is raw JSON itself; a definition that refers to such a one is written as a
  defined type over its name and loses them again.
- `backend/internal/cli/setupvm_bind_plan.go:31-33` says the cap keeps one wait from growing past
  the code's lifetime; the server's own start interval is not capped, and a first `slow_down`
  above a minute shortens the wait, which section 3.5 of RFC 8628 does not allow for.
- `backend/internal/cli/setupvm.go:508-511` says a second run changes nothing; that is so after a
  completed run only.
- `backend/internal/cdc/event.go:7-10` calls the change log the durable, ordered source of truth;
  the rows of a deleted session are removed from it
  (`backend/internal/storage/sqlite/store/session_store.go:353`), so an event can go unpublished,
  and the runs of the model include that.

## Model

| member | source | states |
|---|---|---|
| `BrokerInvariant.StepKeeps` | backend/internal/browserruntime/broker.go:158-200 | Each critical section, channel send, channel receive and conn.Write of any caller, connection or reply goroutine keeps the whole invariant of slot, pending table, channels, gate and wire |
| `BrokerInvariant.RunInv` | backend/internal/browserruntime/broker.go:158-408 | The invariant holds in every state of every interleaving that starts from a new broker |
| `BrokerTheorems.NeverOrphaned` | backend/internal/browserruntime/broker.go:158-200 | In every reachable state a caller that is going to read its channel is pending, or owed exactly one value, or has that value in its channel, and never two of these |
| `BrokerTheorems.SendNeverBlocks` | backend/internal/browserruntime/broker.go:404-408 | A goroutine that took a channel always finds it empty, so the capacity-1 send cannot block |
| `BrokerTheorems.OneSendPerChannel` | backend/internal/browserruntime/broker.go:348-371 | No result channel is sent on twice in any run |
| `BrokerTheorems.PendingBelongsToCurrent` | backend/internal/browserruntime/broker.go:162-169 | Every pending request was registered on the connection now in the slot, and there is none without a connection |
| `BrokerTheorems.LateEventsChangeNothing` | backend/internal/browserruntime/broker.go:373-378 | The end of a replaced connection, or an answer on it to an id whose command is whole on the wire, written or still being written, leaves the broker exactly as it was |
| `BrokerTheorems.LateDropEndsItsCaller` | backend/internal/browserruntime/broker.go:178-184 | The disconnect Execute itself makes after a failed write ends its caller and changes nothing else, once that connection was replaced |
| `BrokerTheorems.WritesNeverOverlap` | backend/internal/browserruntime/broker.go:278-284 | At most one call of write is between taking and returning the gate token |
| `BrokerTheorems.TokenConserved` | backend/internal/browserruntime/broker.go:131-132 | The token is in the gate exactly when no write is in progress, and there is never more than one |
| `BrokerTheorems.CancelFollowsCommand` | backend/internal/browserruntime/broker.go:187-193 | A cancel frame, whole or cut short, comes after the complete command frame of its id on the same connection, and no frame exceeds the limit |
| `BrokerFraming.FramingExact` | backend/internal/browserruntime/broker.go:298-313 | A stream of writes splits back into exactly the messages whose frame was completed if and only if no write stopped inside its frame |
| `BrokerTheorems.WireSplitsBack` | backend/internal/browserruntime/broker.go:278-339 | In every reachable state the bytes of an idle connection split back into the messages completed on it, each within the limit, if and only if no write on it stopped part-way |
| `BrokerFraming.PartialWriteGarbles` | backend/internal/browserruntime/broker.go:304-314 | The failing family: after a write cut inside its frame the next message is read as part of a garbled line |
| `BrokerTheorems.CancelledWriteGarbles` | backend/internal/browserruntime/broker.go:178-184 | A run, for any two commands, in which a context that ends inside the first write garbles the second while its caller waits on a connection that is still current |
| `BrokerTheorems.AnswersComeHome` | backend/internal/browserruntime/broker.go:348-371 | If the runtime answers only ids whose whole command reached it on that connection, the write returned or not, every answer a caller ends with came in on the connection its command was written on |
| `BrokerOutcomes.OutcomeExplained` | backend/internal/browserruntime/broker.go:158-200 | In every run a caller that ends with an answer ends with the very result or error of one answer step to its request, made while the request was pending, and no other answer to that id ever finds it pending; one that ends with ErrUnavailable lost its connection while pending or gave up after its own failed write; one that ends with its context error had its context end |
| `BrokerOutcomes.DropsAfterFailedWrite` | backend/internal/browserruntime/broker.go:178-184 | Execute takes a connection down itself only after its own write to it went wrong |
| `BrokerTheorems.WaiterIsReleased` | backend/internal/browserruntime/broker.go:187-200 | From every reachable state a waiting caller is at most three enabled steps from returning, with its answer, or with ErrUnavailable if it was still pending |
| `BrokerObject.Broker.Status` | backend/internal/browserruntime/broker.go:150-155 | Reports a connection exactly when there is one, and then the time it was made |
| `BrokerObject.Broker.StartRequest` | backend/internal/browserruntime/broker.go:162-169 | Registers the channel when a runtime is connected and changes nothing otherwise |
| `BrokerObject.Broker.FailPending` | backend/internal/browserruntime/broker.go:404-408 | Each taken channel receives the failure exactly once, in any map order |
| `BrokerObject.Broker.InstallConnection` | backend/internal/browserruntime/broker.go:248-257 | The new connection takes the slot with an empty table and every request of the old one fails |
| `BrokerObject.Broker.Disconnect` | backend/internal/browserruntime/broker.go:373-390 | Empties the slot and fails its requests for the current connection; for any other it changes nothing |
| `BrokerObject.Broker.Resolve` | backend/internal/browserruntime/broker.go:348-371 | The channel pending under the id, and no other, receives the result or the error of the message, with the default result and the default code and text where the message has none; an unknown id changes nothing |
| `BrokerObject.Broker.RemovePending` | backend/internal/browserruntime/broker.go:392-396 | Deletes one entry of the table, present or not, and nothing else |
| `BrokerObject.Broker.Write` | backend/internal/browserruntime/broker.go:278-339 | The wire gains a prefix of the frame, all of it on success and none of it when the gate was given up or the frame is over the limit; the token is back afterwards |
| `BrokerObject.SentWhole` | backend/internal/browserruntime/broker.go:298-339 | The whole frame gets out if and only if some number of calls of conn.Write succeed, each making headway, and between them take it all |
| `GoNames.BuildExportName` | backend/cmd/gencodexproto/main.go:1007-1045 | The loop with its builder and word-boundary flag, and the suffix table after it, compute ExportName |
| `GoWords.ExportNameIs` | backend/cmd/gencodexproto/main.go:1007-1045 | For every string: the exported name is its runs of letters and digits, each with a capital, behind an N if that starts with a digit, and with Id, Url, Uri, Api, Json, Http, Mcp or Sdp at the end in capitals |
| `GoNames.ExportNameShape` | backend/cmd/gencodexproto/main.go:1007-1045 | A non-empty exported name starts with an ASCII capital and goes on with ASCII letters and digits |
| `GoNames.ExportNameIdempotent` | backend/cmd/gencodexproto/main.go:1007-1045 | Exporting an exported name changes nothing, for every string |
| `GoNames.ExportNameEmpty` | backend/cmd/gencodexproto/main.go:1007-1045 | The exported name is empty exactly when the source has no ASCII letter or digit |
| `GoCopies.SameShapeIs` | backend/cmd/gencodexproto/main.go:302-342 | Two schemas have the same shape if and only if they agree in every field but title and description, and so do their properties, definitions, items and arms, at every depth |
| `GoDocs.StripIdempotent` | backend/cmd/gencodexproto/main.go:308-342 | Erasing documentation twice is erasing it once |
| `GoDocs.MapTypeStrip` | backend/cmd/gencodexproto/main.go:392-464 | Erasing documentation never changes the Go type of a schema, and changes the object it asks for only in documentation |
| `GoDocs.SameShapeMapsAlike` | backend/cmd/gencodexproto/main.go:302-306 | Schemas of the same shape map to the same Go type and ask for the same declarations |
| `GoForms.LastSegment` | backend/cmd/gencodexproto/main.go:381-386 | A reference means what stands behind its last slash |
| `GoDecoding.DecodesExactly` | backend/cmd/gencodexproto/main.go:392-464 | A JSON value decodes into the Go type of a schema if and only if the schema, read in its own words, takes it: any strings for an enum, what its first declared type says, element by element for arrays and maps, whatever its reference takes, and anything where it does not say |
| `GoDecoding.RawExactly` | backend/cmd/gencodexproto/main.go:392-464 | The Go type is raw JSON if and only if the schema says nothing of the value: no reference, no enum, no known type, or an object it leaves open |
| `GoDecoding.AdmittedDecodes` | backend/cmd/gencodexproto/main.go:392-464 | Where enums list strings, declared types agree and no reference has a nullable union beside it, every value draft-07 lets the schema admit decodes into its Go type, arrays, maps, integer formats, nullable unions and references included |
| `GoLimits.TypesDecodeExactly` | backend/cmd/gencodexproto/main.go:409-429 | For a schema of types and a format: all it admits decodes if and only if one type is declared, null and integers beside numbers aside, and integers have a format of at most 64 bits; uint, or no format, is too wide |
| `GoMerge.MergesExactly` | backend/cmd/gencodexproto/main.go:276-297 | A list of files merges if and only if every two of them agree on the shape of what both declare; the merge declares exactly the names declared somewhere, in the shape every declaring file gives |
| `GoMerge.CopiesMerge` | backend/cmd/gencodexproto/main.go:276-306 | A file merges with any copy of itself whose titles and descriptions differ at any depth, and stays what it was |
| `GoMerge.FileOrderNeverShows` | backend/cmd/gencodexproto/main.go:233-297 | Whether files merge, and which declarations may come out of a run comments aside, depends only on the set of files and not on their order |
| `GoShapes.DocsNeverShow` | backend/cmd/gencodexproto/main.go:627-758 | Definition lists with the same names and shapes render to the same declarations, unions, anonymous objects and worklist included, when jsonKind answers alike |
| `GoRuns.ShapesDecide` | backend/cmd/gencodexproto/main.go:302-306 | Definition lists with the same names and shapes may be written in exactly the same ways, whichever definitions jsonKind meets first |
| `GoKinds.OneTurnIffAgree` | backend/cmd/gencodexproto/main.go:838-856 | What one call of jsonKind does with a name, answer or call itself, is settled if and only if the definitions exporting to that name agree in their own kind and in the type they lead to |
| `GoKinds.ReturnsUnlessItLoops` | backend/cmd/gencodexproto/main.go:819-858 | jsonKind is sure to return on a type if and only if no type it can reach reaches itself in one or more calls; it then makes at most one call more than there are definitions |
| `GoKinds.SettledAnswer` | backend/cmd/gencodexproto/main.go:819-858 | Where definitions of one Go name agree, jsonKind has at most one answer for a type, and has one exactly when no type reached from it reaches itself |
| `GoScalars.BuiltinKindIsNarrowest` | backend/cmd/gencodexproto/main.go:819-835 | The kind of a Go type is the narrowest that covers every value that decodes into it |
| `GoScalars.KindsAgreeExactly` | backend/cmd/gencodexproto/main.go:838-856 | For a definition of types alone jsonKind agrees with the Go type written for it if and only if string is declared behind no other type and no scalar type behind one that is none |
| `GoScalars.KindMatchesExactly` | backend/cmd/gencodexproto/main.go:842-851 | So such a definition shows the kind it is written as if and only if its types are in that order |
| `GoProgram.KindsAreSound` | backend/cmd/gencodexproto/main.go:819-858 | Where definitions show the kind they are written as, whatever jsonKind may answer for a type holds of every value that decodes into it, however many names it goes through |
| `GoRuns.OutputDecided` | backend/cmd/gencodexproto/main.go:798-858 | Where definitions of one Go name agree, all runs that end write the same declarations, and a run ends exactly when no type whose kind it asks for leads back to where it was |
| `GoRuns.NoLoopWrites` | backend/cmd/gencodexproto/main.go:798-858 | Whether or not they agree, where none of the types asked about can loop some run ends and writes |
| `GoLimits.WrapLoops` | backend/cmd/gencodexproto/main.go:852-854 | The failing family: on a definition whose one-armed allOf refers to itself jsonKind can go round for ever |
| `GoLimits.NothingIsWritten` | backend/cmd/gencodexproto/main.go:921-923 | ... and a tagged union that joins a reference to it with string makes every run ask, so that nothing is ever written |
| `GoLimits.TwoOutputs` | backend/cmd/gencodexproto/main.go:838-842 | The other failing family: with a string and an integer definition of one Go name, a union that joins a reference to that name with string can be written in two ways, by the order a Go map is walked in |
| `GoWiden.JoinAllIs` | backend/cmd/gencodexproto/main.go:798-817 | For any answers of jsonKind: folding one field over the arms gives the common type if all agree, the canonical type of the JSON kind if only the kinds agree, raw JSON otherwise |
| `GoWiden.JoinAllIgnoresOrder` | backend/cmd/gencodexproto/main.go:888-926 | Answered alike throughout, the fold depends neither on the order of the arms nor on repetitions |
| `GoWiden.JoinAllKeepsKind` | backend/cmd/gencodexproto/main.go:798-858 | The fold never changes the JSON kind of any arm unless it goes raw |
| `GoWiden.JoinIsSemilattice` | backend/cmd/gencodexproto/main.go:798-817 | Joining two types is idempotent, commutative and associative |
| `GoJoins.JoinDecodes` | backend/cmd/gencodexproto/main.go:798-817 | With true answers of jsonKind, a value one arm takes the joined field takes, if and only if it is not an integer beyond int64 where different integer types were joined |
| `GoJoins.WideIntegersLost` | backend/cmd/gencodexproto/main.go:806-807 | The failing family: joined with another integer type, a uint64 refuses the upper half of what it took |
| `GoFields.FlattenJoins` | backend/cmd/gencodexproto/main.go:888-926 | Answered alike throughout, after the loops over all arms every field of some arm is listed, once, at the join of its types; no other field is |
| `GoFields.FieldTypeIgnoresArmOrder` | backend/cmd/gencodexproto/main.go:888-926 | Answered alike throughout, reordering or repeating the arms of a union changes neither its fields nor their types |
| `GoRuns.ArmOrderNeverShows` | backend/cmd/gencodexproto/main.go:888-926 | Where definitions of one Go name agree, that holds of any two runs, whatever jsonKind met first in either |
| `GoFields.FieldNamesDistinct` | backend/cmd/gencodexproto/main.go:760-777 | The fields of a struct have distinct names if and only if no three JSON names share one Go name |
| `GoLimits.ThreeSeparators` | backend/cmd/gencodexproto/main.go:771-774 | The failing family: three JSON names that differ only in the character between two words, as in a_b, a-b and a.b |
| `GoForms.FormDecided` | backend/cmd/gencodexproto/main.go:651-731 | A definition becomes a string type if and only if it lists strings, itself or in each arm; else a struct if its arms share a name that has one value in each, or it has members; else a type over another |
| `GoForms.EnumValues` | backend/cmd/gencodexproto/main.go:656-690 | A string type lists exactly the strings the definition lists, or those of its arms |
| `GoFields.UnionFieldNamesDistinct` | backend/cmd/gencodexproto/main.go:934-951 | The fields of a flattened union, its tag among them, have distinct names if and only if no three of its JSON names share one Go name, the empty one included |
| `GoStructs.FieldsStand` | backend/cmd/gencodexproto/main.go:733-795 | A struct has one field for each member with a letter or digit in its name, in order: with its name on the wire, its type, omitempty if and only if it is not required or may be null, and a pointer if and only if it is besides no list, map or raw JSON |
| `GoStructs.PresenceKept` | backend/cmd/gencodexproto/main.go:860-872 | Encoded again, an optional member is there if and only if it was there and is raw JSON, or not null and no empty list or map, so that a zero never reads as absent; a required one is always there |
| `GoStructs.UnionWritten` | backend/cmd/gencodexproto/main.go:874-966 | A union becomes a struct of its tag, always written, and of the fields of its arms in order, each left out when absent, and a type of the values of the tag, ascending and each once |
| `GoStructs.TagValues` | backend/cmd/gencodexproto/main.go:888-907 | The values of the tag are exactly the strings some arm lists for it |
| `GoStructs.EnumListsArms` | backend/cmd/gencodexproto/main.go:668-690 | An enum union lists each string of each arm once and nothing else |
| `GoRender.TurnShrinks` | backend/cmd/gencodexproto/main.go:641-648 | One turn of the worklist leaves strictly less schema to do, so the loop over the growing list ends |
| `GoDeclared.DeclaredOnce` | backend/cmd/gencodexproto/main.go:627-758 | Each type name is declared at most once if and only if no union, when its turn comes, finds its own tag type already written |
| `GoDeclared.NoClash` | backend/cmd/gencodexproto/main.go:954-955 | Distinct exported definition names, none equal to the name of a union plus Type, rule that out |
| `GoLimits.TagTypeTwice` | backend/cmd/gencodexproto/main.go:954-955 | The failing family: a definition named like the tag type of a union sorted behind it, whatever either holds |
| `GoDeclared.UsedAreDeclared` | backend/cmd/gencodexproto/main.go:627-758 | With every reference leading to a definition, every type name a field or alias uses is declared |
| `GoDeclared.DefinitionStands` | backend/cmd/gencodexproto/main.go:651-654 | Where no name is declared twice, a definition is declared as itself if and only if nobody had taken its name when its turn came, or whoever had declared the very same |
| `GoDeclared.ObjectsStand` | backend/cmd/gencodexproto/main.go:641-648 | Where no name is declared twice, all anonymous objects are declared as themselves if and only if no two of one name differ and none takes a name a definition has written otherwise |
| `GoSound.DefinitionDecodes` | backend/cmd/gencodexproto/main.go:651-758 | Every value a regular definition admits decodes into the declaration written for it, struct, flattened union, enum or alias, if what it refers to does |
| `GoProgram.EveryValueDecodes` | backend/cmd/gencodexproto/main.go:627-758 | What the generator is for: in any run that ends, every value a well-formed definition admits, however deep its references go, decodes into the generated type of that definition |
| `GoScalars.OneTypeIsWellFormed` | backend/cmd/gencodexproto/main.go:651-731 | A definition of types in order and a format with room is well-formed, whatever jsonKind answers |
| `GoLosses.RawIsLost` | backend/cmd/gencodexproto/main.go:714-731 | The failing family of names for raw JSON: such a definition admits every value, and its type takes base64 text, lists of bytes and null only |
| `GoLosses.ObjectsAreLost` | backend/cmd/gencodexproto/main.go:714-731 | The failing family of lists of anonymous objects: the type becomes a list of itself, and no list with an object in it decodes |
| `GoGenerator.TagIsLeast` | backend/cmd/gencodexproto/main.go:496-534 | The discriminator is the least name that is a one-value enum in every arm, and there is none exactly when there is no such name |
| `GoGenerator.FindTag` | backend/cmd/gencodexproto/main.go:496-534 | Cutting the first arm's candidates down by each further arm and taking the least finds that discriminator |
| `GoGenerator.Generator.MergeDefs` | backend/cmd/gencodexproto/main.go:276-297 | Key by key in any order: the table becomes the merge, or a name that conflicts is reported; what was there is never changed |
| `GoGenerator.Generator.MapGoType` | backend/cmd/gencodexproto/main.go:392-464 | Returns the type of MapType and appends exactly the object it asks for to the list |
| `GoGenerator.Generator.RenderStruct` | backend/cmd/gencodexproto/main.go:733-758 | Writes one struct and appends what its fields ask for, or does nothing when the name is taken |
| `GoGenerator.Generator.RenderFlattenedUnion` | backend/cmd/gencodexproto/main.go:874-966 | Writes the flattened struct and the tag type EmitUnion describes, whatever jsonKind answers on the way |
| `GoGenerator.Generator.RenderDefinition` | backend/cmd/gencodexproto/main.go:651-731 | Takes the branch RenderDef takes: enum, enum union, tagged union, struct or alias |
| `GoGenerator.Generator.RenderAll` | backend/cmd/gencodexproto/main.go:627-649 | Writes exactly the declarations of RenderTypes on the definitions in order of name, for the answers jsonKind gave; if it may give them, these are declarations a run may write |
| `StringOrder.LessIs` | backend/cmd/gencodexproto/main.go:525-533 | The order names are walked and tags picked in is that of a dictionary |
| `StringOrder.PickLeast` | backend/cmd/gencodexproto/main.go:525-533 | Looking at each name of a set finds its least |
| `AttachmentNames.TempIsNotValid` | backend/internal/attachmentstore/store.go:392-413 | No temporary name is ever a valid attachment name, whatever its random suffix |
| `AttachmentNames.ValidNameIs` | backend/internal/attachmentstore/store.go:392-426 | The names taken are exactly those of up to 255 characters made of attachment- or image-, a stem of letters, digits, - and _, a dot, and an extension of those and single inner dots, that end in .svg or .svgz in no letter case |
| `AttachmentNames.SessionIdIsComponent` | backend/internal/attachmentstore/store.go:384-390 | A session id is taken exactly when it is one path component, whichever way its slashes point, is not empty or made of the dots, and has no zero in it |
| `AttachmentNames.ValidNameIsPlain` | backend/internal/attachmentstore/store.go:392-426 | A valid name is one visible path component of letters, digits, dash, underscore and single inner dots |
| `AttachmentNames.PathRecognised` | backend/internal/attachmentstore/store.go:298-309 | A workspace path is recognised as a name if and only if it is the attachments directory, a slash and that valid name, give or take one leading slash and the direction of slashes |
| `AttachmentNames.PathRoundTrip` | backend/internal/attachmentstore/store.go:298-309 | The path the store writes for a valid name is read back as that name |
| `AttachmentRuns.StepKeeps` | backend/internal/attachmentstore/store.go:440-509 | With any number of writers interleaved and a crash possible anywhere, every file operation keeps the invariant and changes no attachment except by completing it or removing it on purpose |
| `AttachmentRuns.NeverPartial` | backend/internal/attachmentstore/store.go:440-509 | In every state of every run, so wherever the machine stops, each attachment there is, is a whole file of 1 byte to 10 MiB |
| `AttachmentRuns.Immutable` | backend/internal/attachmentstore/store.go:55-92 | An attachment keeps its entry and bytes for as long as no rollback or session removal takes it away |
| `AttachmentRuns.Provenance` | backend/internal/attachmentstore/store.go:440-509 | What is read as an attachment was there from the start or is exactly what some writer set out to store under that name |
| `AttachmentStore.WriteAtomic` | backend/internal/attachmentstore/store.go:440-509 | Undisturbed, the outcome is decided by size and target alone; on success the name holds exactly the source; nothing else but the temporary name changes, and every intermediate state holds the old or the whole new file |
| `AttachmentOperations.Store.Put` | backend/internal/attachmentstore/store.go:55-92 | Success means both copies equal the input and both names were free; any error leaves both attachment maps as before, unless the rollback removal itself failed; every intermediate state of either tree is one of the two |
| `AttachmentOperations.WriteKeepsCanonical` | backend/internal/attachmentstore/store.go:55-92 | So every state Put goes through, and every one a crash can leave behind, holds only whole attachments |
| `AttachmentOperations.Store.ImportWorkspace` | backend/internal/attachmentstore/store.go:97-178 | A completed import takes over exactly the eligible files canonical lacks; a stopped one some of them; undisturbed it succeeds exactly on acceptable arguments |
| `AttachmentOperations.Store.MaterializeWorkspace` | backend/internal/attachmentstore/store.go:184-236 | A completed run makes the worktree agree with canonical on every canonical name and touches no other attachment; the flag tells whether there was one |
| `AttachmentOperations.Store.RemoveSession` | backend/internal/attachmentstore/store.go:262-294 | Succeeds exactly when nothing is in the way and then leaves no file; a failure leaves each file whole or gone; a bad id or no data directory touches nothing |
| `AttachmentTeardown.ImportKeepsCanonical` | backend/internal/attachmentstore/store.go:97-178 | An import leaves only whole attachments in canonical storage, wherever it stops |
| `AttachmentTeardown.ImportChangesNothing` | backend/internal/attachmentstore/store.go:97-178 | Importing changes nothing if and only if the worktree has no eligible file canonical lacks |
| `AttachmentTeardown.ImportIdempotent` | backend/internal/attachmentstore/store.go:97-178 | The second of two imports changes nothing |
| `AttachmentTeardown.TeardownRoundTrip` | backend/internal/attachmentstore/store.go:184-236 | After importing a worktree and materializing into any other, every eligible file comes back with the bytes canonical already had for it, or else its own |
| `AttachmentTeardown.ImportAfterMaterialize` | backend/internal/attachmentstore/store.go:184-236 | Importing right after materializing leaves canonical unchanged if and only if the worktree held no eligible file unknown to canonical |
| `CdcLog.FreshAscends` | backend/internal/cdc/poller.go:107-120 | For any source at all, the seqs one poll publishes strictly increase from above the cursor |
| `CdcLog.FreshKeepsAll` | backend/internal/cdc/poller.go:107-120 | Of an ordered batch past the cursor nothing is skipped |
| `CdcRuns.StepKeeps` | backend/internal/cdc/poller.go:73-120 | Appends, deletions, reads, failed reads, single events of a batch, seeks, subscriptions and their ends keep the invariant in any order |
| `CdcRuns.PublishedExactlyOnce` | backend/internal/cdc/poller.go:107-120 | At every point of every run, the middle of a batch included, what was published since the last seek is, in strictly ascending order, exactly what was appended past the start and up to the cursor less what was deleted before it was read; nothing is published twice even across seeks |
| `CdcSeek.SeekStartsFromNow` | backend/internal/cdc/poller.go:73-80 | Until the next seek nothing is published that was in the log at this one, and all that was not is past the start |
| `CdcRuns.SubscribersHearTheirSlice` | backend/internal/cdc/broadcast.go:28-66 | Every subscriber, live or gone, was called with exactly the contiguous stretch published while it was subscribed, also when it came or went in the middle of a batch |
| `CdcRuns.DrainsInBatches` | backend/internal/cdc/poller.go:107-120 | With n rows outstanding, k polls drain them if and only if k times the batch is at least n, and have then published all of them in order |
| `CdcPoller.Broadcaster.Subscribe` | backend/internal/cdc/broadcast.go:28-39 | A fresh id, a subscriber that has heard nothing, and no other change |
| `CdcPoller.Broadcaster.Unsubscribe` | backend/internal/cdc/broadcast.go:34-38 | Removes that one entry; calling it again does nothing |
| `CdcPoller.Broadcaster.Publish` | backend/internal/cdc/broadcast.go:51-66 | Every current subscriber is called exactly once with the event, whichever of them panic; everyone who ever subscribed has heard exactly its stretch |
| `CdcPoller.Poller.Poll` | backend/internal/cdc/poller.go:107-120 | On whatever the source returned, with subscribers joining and leaving before each event, publishes what Fresh keeps of it and moves the cursor to its last seq; a failed read changes nothing |
| `CdcPoller.Poller.SeekToHead` | backend/internal/cdc/poller.go:73-80 | Moves the cursor to the head that was read, and nowhere if reading failed |
| `DevicePlan.BackOffIsCapped` | backend/internal/cli/setupvm_bind_plan.go:97-105 | After n slow_down answers the interval is five seconds longer for each, never over 60 seconds |
| `DevicePlan.BackOffNeverShrinks` | backend/internal/cli/setupvm_bind_plan.go:97-105 | A slow_down never shortens the wait if and only if the server started at a minute or less |
| `DevicePlan.HugeIntervalWraps` | backend/internal/cli/setupvm_bind_plan.go:109-114 | An interval of ten billion seconds wraps to a negative duration |
| `DevicePlan.SaneSeconds` | backend/internal/cli/setupvm_bind_plan.go:109-114 | All intervals up to 9223372031 seconds, absent and negative ones included, are clear of that |
| `DeviceFlow.PollForBinding` | backend/internal/cli/setupvm_bind.go:177-223 | The loop, with its clock, interval and failure counter, ends, waits and asks exactly as the specification function says on every course of events |
| `DeviceVerdicts.VerdictMeans` | backend/internal/cli/setupvm_bind.go:177-223 | Every verdict, by the text that came back and the clock: denied if and only if the last request was answered access_denied; expired if and only if the deadline had passed after the last wait or the answer was expired_token or invalid_grant; refused with any other code but the two that go on; bound, unusable and cancelled likewise; and each request before was in time and left the code open |
| `DeviceVerdicts.BindingNeeds` | backend/internal/cli/setupvm_bind_plan.go:125-155 | A binding is valid exactly when its machine, account and URL hold more than white space and the URL is a full origin; what is reported is the first of them that is missing |
| `DeviceVerdicts.Lifetime` | backend/internal/cli/setupvm_bind_plan.go:116-121 | A code without a lifetime lives for 15 minutes, any other as long as it says |
| `DeviceFlow.RequestsAreBounded` | backend/internal/cli/setupvm_bind.go:177-223 | With lifetime E and sane start interval I a code gets at most E / min(I, 60s) requests, and no longer course of events leaves the loop still polling |
| `DeviceFlow.BoundedExactly` | backend/internal/cli/setupvm_bind_plan.go:97-114 | The requests of a code are bounded at all if and only if its lifetime is negative, or the start interval is positive and either five seconds or more below the largest int64, or longer than the lifetime |
| `DeviceFlow.WrappedNeverStops` | backend/internal/cli/setupvm_bind_plan.go:109-114 | The failing family: with a wrapped, non-positive interval nothing bounds the number of requests |
| `DeviceFlow.WaitsBackOff` | backend/internal/cli/setupvm_bind.go:211-214 | Every wait is the start interval backed off once for each slow_down so far; no other answer changes it |
| `DeviceFlow.WaitAfterSlowDowns` | backend/internal/cli/setupvm_bind_plan.go:97-105 | From at most a minute, after k slow_down answers the wait is min(I + 5k, 60) seconds |
| `DeviceFlow.WaitsNeverShrink` | backend/internal/cli/setupvm_bind_plan.go:97-105 | ... so no wait is shorter than an earlier one |
| `DeviceFlow.GivesUpAtTheFifth` | backend/internal/cli/setupvm_bind.go:201-209 | It reports lost contact exactly when the last five requests all failed to reach the server, and never goes on past five such failures |
| `DeviceFlow.SuccessIsApproved` | backend/internal/cli/setupvm_bind.go:193-199 | A binding comes out if and only if the last request sent was answered with it and it passes validation |
| `DeviceFlow.RunDeviceFlow` | backend/internal/cli/setupvm_bind.go:151-173 | The loop over codes ends with exactly the end, the codes and the requests the specification function gives |
| `DeviceFlow.FlowRestarts` | backend/internal/cli/setupvm_bind.go:151-173 | At most three codes; another is asked for only after the last expired and somebody said yes; the run ends as its last code ends |
| `DeviceVerdicts.FurtherCodeAfterExpiry` | backend/internal/cli/setupvm_bind.go:151-173 | Another code is asked for at most twice, and only after one that was answered expired_token or invalid_grant or outlived its deadline |
| `DeviceVerdicts.DenialEnds` | backend/internal/cli/setupvm_bind.go:215-218 | No code follows one whose last answer was access_denied, and the run ends as denied |
| `DeviceFlow.FlowSucceeds` | backend/internal/cli/setupvm_bind.go:151-223 | A run ends in a binding only if it is valid and was approved on the last request of the last code |
| `Installer.InstallReaches` | backend/internal/cli/setupvm.go:512-599 | Whatever machine a completed run starts from, an interrupted run's included, packages, binary, unit files and services are in place afterwards |
| `InstallerOrder.StartsInPlace` | backend/internal/cli/setupvm.go:512-599 | Whenever a unit is started or restarted every directory, package and unit file and the binary are in place and the units enabled, and systemd has been told to read again what this run wrote |
| `InstallerOrder.InstallsFromGoodLists` | backend/internal/cli/setupvm.go:610-637 | A package install names exactly the missing packages, right after an update, and with gh among them or its list on the machine, with the keyring and the list in place |
| `Installer.SecondRunChangesNothing` | backend/internal/cli/setupvm.go:512-599 | A second completed run with the same plan and binary writes no file, installs no package, restarts no unit and changes nothing |
| `Installer.RepeatingChangesNothing` | backend/internal/cli/setupvm.go:508-599 | However often a run is repeated, the machine is as the first one left it |
| `Installer.DaemonRestartsOnlyForItsUnit` | backend/internal/cli/setupvm.go:557-563 | The daemon is restarted if and only if its unit text differed; otherwise the running process survives, a new binary notwithstanding |
| `Installer.GatewayRestarts` | backend/internal/cli/setupvm.go:586-592 | The gateway, where it is to run, is restarted if and only if its unit text or the binary changed |
| `Installer.SkewIsNoted` | backend/internal/cli/setupvm.go:572-574 | The version-skew note is given exactly when the daemon is now behind, if and only if the run restarted the daemon, or the binary on disk and the one the daemon ran were both old or both not; one left behind by an earlier run is not mentioned again |
| `Installer.DaemonInSync` | backend/internal/cli/setupvm.go:537-563 | After a completed run the daemon runs the unit text on disk if and only if this run changed that text, found no daemon, or found it on that text already |
| `Installer.InterruptedRunDoesNotConverge` | backend/internal/cli/setupvm.go:537-549 | A run stopped after writing the daemon's unit and before restarting it is reachable, and however often setup is run again the daemon stays off the new text |
| `InstallerObject.Machine.WriteSetupFile` | backend/internal/cli/setupvm.go:765-796 | Writes only when the content differs and says so; a stopped write leaves the file as it was |
| `InstallerObject.Machine.EnsurePackages` | backend/internal/cli/setupvm.go:610-637 | Issues the package commands the machine calls for, or a prefix of them when stopped |
| `InstallerObject.Machine.InstallSetupVM` | backend/internal/cli/setupvm.go:512-599 | A run that gets through issues exactly the commands Commands lists for the machine it found; a stopped run a prefix of them |
| `SetupDirs.MissingSetupDirs` | backend/internal/cli/setupvm.go:1032-1052 | Returns, outermost first and without gaps, exactly the strict ancestors that do not exist; fails exactly when an ancestor lies under a plain file |
| `SetupDirs.MkdirAllMakes` | backend/internal/vmgateway/passcode.go:165-168 | The create call makes the path and every missing ancestor, and nothing else |
| `SetupDirs.MissingIsWhatIsMade` | backend/internal/cli/setupvm.go:1012-1031 | What was missing beforehand is, the directory itself apart, exactly what the create call makes |
| `SetupPasscode.Disk.ChownDirs` | backend/internal/cli/setupvm.go:1062-1076 | Hands over exactly the listed directories, in order up to the first that fails, and none unless the process is root |
| `SetupPasscode.LoadableIs` | backend/internal/vmgateway/passcode.go:126-159 | A stored passcode is taken exactly when passcode.hash is a plain file of 64 hexadecimal digits, white space around them aside |
| `SetupPasscode.Disk.GeneratePasscode` | backend/internal/vmgateway/passcode.go:101-110 | Makes the directory and its missing ancestors and puts the hash file in place, or fails exactly where a file or directory is in the way; earlier entries keep their owners |
| `SetupPasscode.Disk.EnsurePasscode` | backend/internal/cli/setupvm.go:956-982 | A good passcode is never touched; after generating one every new entry and the whole directory belong to the owner; a run stopped in the hand-over leaves some entry with the owner it had and the passcode good, so no later run hands it over; no earlier entry outside the passcode directory changes hands |
| `BrowserText.NoMarkerLeft` | backend/internal/cli/browser.go:709-710 | A pass that escapes one marker leaves none of it and creates none of the other |
| `BrowserText.ExactlyOneOfEach` | backend/internal/cli/browser.go:705-712 | For every page text the result has exactly one begin marker, at its start, and exactly one end marker, at its end |
| `BrowserEscapes.EscapesLoseNothing` | backend/internal/cli/browser.go:705-712 | Between its markers, a line each, the text reads the same as the page text once JSON escapes are undone: escaping loses nothing, whatever the page says |
| `BrowserText.UntouchedWithoutMarkers` | backend/internal/cli/browser.go:705-712 | The page text goes through unchanged if and only if it holds neither marker |
| `Decimal.ItoaRoundTrip` | backend/internal/cli/pr_ref.go:52-57 | A printed number is read back as itself when it fits int64 and refused when it does not |
| `PrForms.GitHubForms` | backend/internal/cli/pr_ref.go:143-147 | A host is taken for GitHub if and only if it is github.com, or ends in .github.com or .ghe.io, in any letter case |
| `PrForms.PrintedForm` | backend/internal/cli/pr_ref.go:50-57 | A printed URL is https with the path /owner/repo/pull/n on those hosts and /owner/repo/-/merge_requests/n on all others |
| `PrForms.PullForm` | backend/internal/cli/pr_ref.go:59-76 | Exactly such a path, with or without .git behind the repository, is read as its parts where the number is positive and fits int64, whatever the host |
| `PrForms.MergeForm` | backend/internal/cli/pr_ref.go:77-96 | The same for merge requests, with an owner of any depth |
| `PrEscapes.SpellingNeverShows` | backend/internal/cli/pr_ref.go:59-67 | A URL is read by what its path says, whichever of its characters are percent-escaped and whatever query and sound fragment stand behind it |
| `PrEscapes.PullSpelled` | backend/internal/cli/pr_ref.go:59-76 | So a pull request URL is read as the same parts in any spelling |
| `PrEscapes.BehindIs` | backend/internal/cli/pr_ref.go:59-63 | A control character before the fragment, or a bad escape in the fragment, makes a URL an error; else its path alone counts |
| `PrRef.ParsedParts` | backend/internal/cli/pr_ref.go:59-96 | The parser, escapes undone, never yields an empty owner, one starting with a slash, a repository with a slash, or a number out of range |
| `PrRef.RoundTrip` | backend/internal/cli/pr_ref.go:52-96 | Parsing a printed URL gives the parts back if and only if the number fits, the repository is slash-free and does not end in .git, the owner is there, on GitHub hosts it is one segment, and neither holds a question mark, a hash, a percent sign or a control character |
| `PrRef.CanonicalIsFixed` | backend/internal/cli/pr_ref.go:37-41 | Canonicalising a canonical URL changes nothing if and only if the parsed repository does not end in .git, on a GitHub host the owner is one segment, and neither holds a character url.Parse reads as something else; a nested owner there is refused outright |
| `PrRef.QuestionMarkMoves` | backend/internal/cli/pr_ref.go:37-41 | The failing family of escapes: an owner let in with an escaped question mark never survives a second pass |
| `PrRef.DoubledSuffixMoves` | backend/internal/cli/pr_ref.go:59-96 | The failing family: each pass over a repeated .git suffix strips one more |

## Left out

- Sockets, read and write deadlines, JSON encoding and decoding, UUID and token generation and `net/http`: frames hold no raw newline, request ids are fresh. Of `url.Parse` only what it does behind the host is modelled: URLs come as scheme, host name and the rest; user names, ports and bracketed hosts are outside the printer and parser model.
- Writing on a closed connection: the step system also lets such a write succeed, which only adds runs.
- `DestroySession`, `Serve`'s accept loop and the hello check in front of `serveConn`: they decide nothing about requests.
- The text of comments, `collectMethods`, `renderMethods` and the digest in the generator. The constants inside an enum declaration are kept as their values, not as identifiers.
- `permissive` schemas: the flag is set and never read.
- Admission by a schema covers what the schema datatype holds: no patterns, lengths or bounds, no `false` schemas, and a `oneOf` admits what at least one arm admits. A number that is whole is taken to be written as an integer. `GoDecoding.Decodes` leaves out floats out of range, matching member names in another letter case and unpaired surrogates.
- `GoProgram.EveryValueDecodes`: goes one way, for definitions that are well-formed in the sense of `GoProgram.WellFormed`; where a file has tagged unions, for values whose integers fit int64. Unions whose arms leave other members open are not well-formed. That the conditions matter is shown by a family for each kind of failure, not by one condition for whole files.
- A browser result that is not JSON: `resolve` answers with a decoding error; the model's bodies are text that decodes.
- Absent and empty lists and maps in a schema are one value; `sameShape` tells a nil list from an empty one.
- `GoRuns.OutputDecided`: where definitions of one Go name differ there may still be one output only, when their answers happen to join alike; the exact condition is proved for one call of `jsonKind`, not for a whole output.
- Symlinks in place of directories, file identity checks, permissions and the retry of a rename on Windows in the attachment store. A worktree file that changes while it is being imported is read as one value.
- `AttachmentRuns.Provenance`: temporary names are taken not to repeat, because their suffix is eight random bytes.
- `AttachmentOperations.Store`: one session's directory and one worktree at a time; the mapping from session ids to directories is only the check of the id.
- The base-name test of `validateName` adds nothing on slash-separated paths to the test for slashes and is not repeated; the length limit counts characters, which for accepted names are bytes.
- `Open` of the attachment store, which only reads, and `SubscriberCount` and `LastSeq` of the fan-out.
- `CdcRuns.DrainsInBatches`: counts polls with no append or deletion between them.
- `CdcPoller.Poller.Poll`: subscribers come and go before an event of a batch, not from inside a subscriber's own call, while the broadcaster holds its lock.
- Overflow of subscription ids and of sequence numbers.
- `bindSetupVM`, `renderMachineFile`, the instructions printed and the decoding of HTTP errors. A cancelled wait is an event of its turn.
- `DeviceFlow.PollForBinding`: takes the events of a run as a finite list and reports `StillPolling` when they run out; `RequestsAreBounded` and `BoundedExactly` say when they cannot.
- What `systemctl` and `apt-get` do inside: `enable` and `daemon-reload` make systemd read the unit files, `start` leaves a running unit alone. Whether a unit stays up afterwards is not modelled.
- Temporary siblings left behind by a stopped `writeSetupFile`.
- `ensureSetupPairCert`: the same walk, create and hand-over as `ensureSetupPasscode` around a certificate.
- `resolvePRRef` on plain numbers, and `cliRepoFromURL`: lookups in project data.
- Case folding of non-ASCII host names, and of schemes other than in ASCII.
- `backend/internal/autoreview/coordinator.go`, the Electron front end, command wiring, output formatting and telemetry: thin wrappers, or decisions taken in files that are not part of this model.

# Verified model of the protocol cores

Dafny models of the four tools in this repository that hold a real protocol or algorithm, with proofs of what
those tools promise. Code that works step by step is modelled by methods and classes with loops; each is
proved against a specification, and the theorems are about the specifications.

**git-plain-clone** fetches one commit over smart HTTP and writes its files. `PktLine` and `SideBand` cover
the framing, `Refs` the choice of the commit, `Varints` the three variable-length integers, `PackFile` and
`PackContents` the pack, `Delta` the delta interpreter, `Objects`, `Chains` and `ResolveDeltas` the resolution
of deltas, `TreeEntries`, `Files`, `Checkout`, `Confinement` and `CheckoutTheorems` the tree walk, and `Fetch`
the pipeline. `DeltaNumbers`, `ObjectIds` and `TreeBytes` say in literal bytes, numbers and names what copies,
ids and tree entries mean. `EndToEnd` puts them together: whatever way a server encodes a set of objects, a
clone writes exactly the files of the wanted tree. `Example` is one repository on which all its premises hold,
and `ExampleBytes` has its response byte by byte. The object hash, the pack checksum and zlib are parameters.
About the hash nothing is assumed; inflate only has to undo the server's deflate and to report how many bytes
it took.

**sqlite2meilisearch** makes an index equal to what a query and a script generate. `Batching` shows the upload
batches to be optimal, `Source` and `Sync` that a successful run leaves exactly the generated documents and
that no run deletes too early, `Transform` what the JSON conversions keep.

**ssh-auto-port** forwards the ports that a remote host listens on. `ProbeFrames`, `ProbeText`,
`ProbeTheorems` and `ProbeTable` cover the probe's output, `PortSearch` the choice of a local port, `Forwards`
and `ForwardRuns` the reconciler over whole runs, `ForwardOutcomes` where each port ends up, and `PollLoop`
the loop around them.

**remote-text-input** lets web sessions take turns at typing into the focused window. `InputMethod` ties the
backend's fields to the history of events and requests, and `FocusHistory` says by positions in it when there
is a focus; `Sessions` is the labelled transition system of sessions, lock, command channel, backend and
compositor, with invariants over all interleavings; `SessionProgress` says what sessions get done.

`Wrappers` and `Bytes` hold Option, Result and facts about byte strings.

## Where the code and its documentation or purpose part

- `materialize` reports the number of leaves it wrote. That is the number of files present only if no
  two leaves share a path: `CheckoutTheorems.ReportedIsPresent` has the exact condition and
  `CheckoutTheorems.DuplicateNames` a tree that breaks it.
- A JSON number with a fraction goes through a double. It comes back digit for digit exactly when it was
  already the shortest text of its double (`Transform.ExactRoundTrip`); `Transform.DigitsLost` shows one that
  is not. As doubles, all numbers come back (`Transform.RoundTrip`).
- Varints have overlong spellings, and the decoders differ in what they do with them; `Varints` says what
  every terminated byte string reads as, and the round trips cover values below 2^63.

## Model

| member | source | states |
|---|---|---|
| Varints.ReadDeltaVarint | git-plain-clone/internal/gitp/delta.go:105-120 | The loop with shifts and ors computes the little-endian base-128 value of the terminated string, fails on a missing end, stops after ten bytes and wraps like a 64-bit int. |
| Varints.DeltaVarintAt | git-plain-clone/internal/gitp/delta.go:105-120 | What every terminated string reads as, wherever it stands, overlong ones included. |
| Varints.DeltaVarintRoundTrip | git-plain-clone/internal/gitp/delta.go:105-120 | Any size below 2^63 written in base 128 is read back with the position after it, whatever surrounds it. |
| Varints.DecodeObjectHeader | git-plain-clone/internal/gitp/pack.go:166-188 | Type from three bits of the first byte, size from its low four bits and seven more per byte, modulo 2^64. |
| Varints.ObjectHeaderRoundTrip | git-plain-clone/internal/gitp/pack.go:166-188 | Every type and every size below 2^63 written as a pack object header is read back. |
| Varints.DecodeOfsDelta | git-plain-clone/internal/gitp/pack.go:190-204 | The loop that adds one per continuation byte computes the offset code, as an int64, and the position after it. |
| Varints.OfsBijection | git-plain-clone/internal/gitp/pack.go:190-204 | The offset code maps the terminated byte strings one to one onto the naturals; encoder and decoder are inverse both ways. |
| Varints.OfsInjective | git-plain-clone/internal/gitp/pack.go:190-204 | Two terminated strings with the same offset are the same string: no offset has an overlong form. |
| Varints.OfsDeltaExact | git-plain-clone/internal/gitp/pack.go:190-204 | A terminated string decodes to n exactly when it is the one encoding of a number that wraps to n in 64 bits; for strings of value below 2^63, exactly when it is the encoding of n. |
| Delta.ApplyDelta | git-plain-clone/internal/gitp/delta.go:5-103 | The interpreter with its positions and result buffer computes Apply, errors included; ApplyExact, ApplyRoundTrip and CopiesFromNumbers say what that is. |
| Delta.TakeCopy | git-plain-clone/internal/gitp/delta.go:25-79 | The conditional bytes of a copy command give the offset and size that CopiesFromNumbers writes out as numbers, low byte first, or a truncation. |
| Delta.ApplyExact | git-plain-clone/internal/gitp/delta.go:5-103 | Applying yields r if and only if the delta is two size varints of base and r followed by instructions that use it up, stay inside base and run to r. |
| Delta.ApplyRoundTrip | git-plain-clone/internal/gitp/delta.go:5-103 | Any program that stays inside base, however its writer spelled the copy arguments, is decoded and run to its meaning. |
| Delta.ReadOpInverse | git-plain-clone/internal/gitp/delta.go:23-97 | A written instruction is read back with the position after it, whichever argument bytes were spelled out. |
| DeltaNumbers.CopiesFromNumbers | git-plain-clone/internal/gitp/delta.go:25-87 | From numbers: for every offset below 2^32 and size below 2^24 inside the base, written low byte first with any choice of the zero bytes left out, and 0x10000 perhaps as zero, the delta gives that part of the base. |
| DeltaNumbers.CopiesInFull | git-plain-clone/internal/gitp/delta.go:25-87 | With all seven bytes written out after 0xff. |
| Objects.ObjectStore.Add | git-plain-clone/internal/gitp/object.go:44-58 | A new id is stored; a known one is refused and nothing changes. |
| Objects.ObjectStore.SetOffset | git-plain-clone/internal/gitp/object.go:60-68 | The object of a known id is found at the offset too; an unknown id is refused. |
| Objects.ObjectStore.AddPendingDelta | git-plain-clone/internal/gitp/object.go:78-80 | The delta is appended and the two indexes stay as they are. |
| Chains.SolutionUnique | git-plain-clone/internal/gitp/pack.go:104-164 | A resolution problem has at most one solution: two indexes that hold exactly the objects of all chains are equal. |
| Chains.SolutionLeast | git-plain-clone/internal/gitp/pack.go:111-163 | The solution is closed under resolving and contained in every closed index over the same plain objects: the least fixpoint. |
| Chains.ChainMeaning | git-plain-clone/internal/gitp/pack.go:136-158 | The object at the end of a chain has its root's type, and its data is the root's data with the chain's deltas applied in order. |
| ObjectIds.ChainNamed | git-plain-clone/internal/gitp/object.go:82-95 | The object of a chain has as its id the hash of its data under the name of its root's type: "commit", "tree", "blob" or "tag" for 1, 2, 3 and 4. |
| ResolveDeltas.ResolveDeltas | git-plain-clone/internal/gitp/pack.go:104-164 | The nested fixpoint loop ends; it succeeds exactly on solvable problems and then leaves the solution; "unresolvable" means that some delta ends no chain and nothing else is wrong, and each other error names a fault that is there: a bad offset, a delta that does not apply to the object it names, a base of no known type, or one id for two entries. |
| ResolveDeltas.Outcomes | git-plain-clone/internal/gitp/pack.go:111-163 | Which of the three outcomes a run has depends on the problem alone: "unresolvable" exactly when nothing is faulty and some delta reaches no plain object, another error exactly when something is faulty. |
| ResolveDeltas.Confluence | git-plain-clone/internal/gitp/pack.go:104-164 | Two runs on the same deltas in different orders agree on success, on the maps by id and by offset, and on whether the deltas are called unresolvable. |
| ResolveDeltas.StuckIsNotFaulty | git-plain-clone/internal/gitp/pack.go:154-162 | When the loop stops for lack of progress, nothing is wrong but missing bases. |
| ResolveDeltas.OnePass | git-plain-clone/internal/gitp/pack.go:115-158 | One walk over the deltas keeps the invariant, an error it returns names a fault, and without progress every pending delta has a proper offset and no base in the store. |
| ResolveDeltas.FixpointHolds | git-plain-clone/internal/gitp/pack.go:111-163 | When no pending delta has its base, the index holds the object of every chain. |
| ResolveDeltas.StuckIsUngrounded | git-plain-clone/internal/gitp/pack.go:160-162 | A delta still pending at the fixpoint ends no chain at all. |
| ResolveDeltas.StepSucceeds | git-plain-clone/internal/gitp/pack.go:120-157 | In a solvable problem, none of the checks inside the loop can fail, in whatever order deltas come. |
| PackFile.ParsePack | git-plain-clone/internal/gitp/pack.go:11-102 | The loop that advances a position and fills the store accepts what Parse accepts and leaves in the store the contents that ParseExact characterizes, under the ids that ObjectIds.ParsedNamed spells out. |
| PackFile.ReadEntryInverse | git-plain-clone/internal/gitp/pack.go:30-92 | A written entry, plain, offset delta or reference delta, is read back with the position after it. |
| PackFile.ParseExact | git-plain-clone/internal/gitp/pack.go:11-102 | A pack is accepted with contents t exactly when its header, version and checksum are right, the announced number of entries tiles the bytes from 12 to the checksum, and filing them gives t. |
| PackContents.ParsedIsTidy | git-plain-clone/internal/gitp/pack.go:24-101 | After parsing, entries lie at strictly increasing offsets, each plain object and each delta at its own, and their number is the header's. |
| PackContents.ParseUndoesWrite | git-plain-clone/internal/gitp/pack.go:11-102 | Parsing a written pack files the written entries at the bytes where they start, deltas in order. |
| ObjectIds.ParsedNamed | git-plain-clone/internal/gitp/pack.go:60-79 | After parsing, every object of type 1, 2, 3 or 4 is filed under the hash of its data with the name "commit", "tree", "blob" or "tag", and there are no others. |
| PktLine.PktRead | git-plain-clone/internal/gitp/pktline.go:11-30 | Reads a frame and moves past it, with the error the bytes deserve. |
| PktLine.PktWrite | git-plain-clone/internal/gitp/pktline.go:32-45 | Appends the frame, or refuses a payload over the limit. |
| PktLine.PktFlush | git-plain-clone/internal/gitp/pktline.go:47-49 | Appends the flush frame. |
| PktLine.ReadWrite | git-plain-clone/internal/gitp/pktline.go:11-49 | A written frame is read back with the position after it, whatever surrounds it. |
| PktLine.ReadAllWriteAll | git-plain-clone/internal/gitp/pktline.go:11-49 | Reading undoes any sequence of writes and flushes. |
| PktLine.ReadDigits | git-plain-clone/internal/gitp/pktline.go:11-30 | What follows four hex digits, in either case, is read by the number they spell, high digit first: a flush up to 2, an error at 3 or beyond the end, else that many bytes less four. |
| PktLine.BadDigit | git-plain-clone/internal/gitp/pktline.go:15-18 | A character among the four that is no digit is refused. |
| SideBand.ExtractPack | git-plain-clone/internal/gitp/protocol.go:199-246 | The loop over pkt-lines with its output buffer yields the collected pack, the server's error, or "no pack", as Extract defines for the theorems below. |
| SideBand.LoopIsDemux | git-plain-clone/internal/gitp/protocol.go:199-246 | On any frames, perhaps followed by a bare pack, the byte loop is the fold over the frames' lines. |
| SideBand.FramedExtract | git-plain-clone/internal/gitp/protocol.go:199-246 | Among lines that neither end the transfer nor carry a pack, exactly the band-1 data is extracted, however it was cut. |
| SideBand.BareExtract | git-plain-clone/internal/gitp/protocol.go:204-208 | A pack sent without framing after such lines gives the same result. |
| SideBand.AnyExtract | git-plain-clone/internal/gitp/protocol.go:209-245 | Without an error line, what is extracted is the band-1 data and the unbanded lines that begin with PACK, joined, if that begins with PACK. |
| SideBand.FatalLine | git-plain-clone/internal/gitp/protocol.go:226-240 | The first line of band 3, or that begins with "ERR ", ends extraction with its message, whatever follows. |
| Refs.SelectAdvertisedRef | git-plain-clone/internal/gitp/protocol.go:21-111 | The loop with its four flags yields the id, or the first error, that Select defines for the theorems below. |
| Refs.SelectsBest | git-plain-clone/internal/gitp/protocol.go:21-111 | From any advertisement a server writes, the first ref of the best grade is selected, and "not found" is returned exactly when no ref answers. |
| Refs.OrderDoesNotMatter | git-plain-clone/internal/gitp/protocol.go:96-104 | With distinct names, the same ref is chosen in whatever order the refs are listed. |
| Refs.BranchBeatsTag | git-plain-clone/internal/gitp/protocol.go:149-167 | The first refs/heads/x is chosen if there is one, else the first refs/tags/x; for HEAD only HEAD counts. |
| Refs.LaterLine | git-plain-clone/internal/gitp/protocol.go:84-104 | After the first ref, a line without a name is refused; a better name needs an id of the right length in digits, and is refused without one; any other name changes nothing. |
| Refs.BrokenLine | git-plain-clone/internal/gitp/protocol.go:51-72 | A line without an id is refused, and so is a first ref without capabilities or without a name. |
| Refs.BrokenAdvertisement | git-plain-clone/internal/gitp/protocol.go:29-75 | A line that is refused where the first ref should be makes the whole advertisement fail for that reason. |
| Refs.FormatExact | git-plain-clone/internal/gitp/protocol.go:121-147 | The object format is accepted exactly when the first id has the length of a known hash, every format among the capabilities is known, and the first of them agrees with that length. |
| Refs.LoopIsFold | git-plain-clone/internal/gitp/protocol.go:29-49 | The byte loop is a fold over frames that a flush after the first ref ends. |
| Refs.CloneRef | git-plain-clone/internal/gitp/fetch.go:16-69 | Without a ref nothing is written; with one, the run is a clone of the id it names, in the format of that id. |
| TreeEntries.NextTreeEntry | git-plain-clone/internal/gitp/writer.go:117-156 | Returns the entry at a position, the end, or the error, and always moves forward. |
| TreeEntries.NextInverse | git-plain-clone/internal/gitp/writer.go:117-156 | A written tree entry is read back with the position after it. |
| TreeEntries.ListWriteTree | git-plain-clone/internal/gitp/writer.go:117-156 | Listing a serialized tree gives its entries back. |
| TreeBytes.EntriesWritten | git-plain-clone/internal/gitp/writer.go:57-86 | From a tree in literal text with distinct names, a successful walk has made of "40000" a directory, of "100644" and "100755" files without and with the executable bit, of "120000" a link to the blob's text, and of "160000" nothing. |
| TreeBytes.TreeUsable | git-plain-clone/internal/gitp/writer.go:50-82 | Such a tree can be written out exactly when each name is one step down, each subtree is there and usable, each blob is there, and each link's text is not empty and has no NUL. |
| Files.FileSystem.EnsureDir | git-plain-clone/internal/gitp/writer.go:165-176 | The directory is there afterwards, or something else is in its place and nothing changed. |
| Files.FileSystem.WriteFile | git-plain-clone/internal/gitp/writer.go:178-202 | The file holds the blob afterwards; a directory or a link in its place is refused. |
| Files.FileSystem.CreateSymlink | git-plain-clone/internal/gitp/writer.go:204-215 | The link is there afterwards, unless something was in its place. |
| Checkout.CountMaterializedEntries | git-plain-clone/internal/gitp/writer.go:88-115 | The recursive loop over entries yields the count that CountsLeaves shows to be the number of leaves, on stores whose trees contain no cycle. |
| Checkout.MaterializeTree | git-plain-clone/internal/gitp/writer.go:37-86 | The recursive walk leaves the files and returns the number or the error of Walk, also when it stops half-way; the theorems below are about Walk. |
| Confinement.WalkConfined | git-plain-clone/internal/gitp/writer.go:37-86 | From a real directory, successful or not, the walk removes nothing, turns no directory into anything else, and creates or changes only paths that are reached from it by valid names through directories that are not links. |
| Confinement.ReachedIsFollowed | git-plain-clone/internal/gitp/writer.go:158-176 | The text of such a path, followed name by name with "." and ".." and slashes as the operating system does, leads to that very path and through directories only. |
| CheckoutTheorems.ContainedStays | git-plain-clone/internal/gitp/writer.go:18-35 | So it is for everything a checkout creates or changes, whatever the tree says: the text leads from the output directory to a path below it. |
| CheckoutTheorems.WalkSound | git-plain-clone/internal/gitp/writer.go:37-86 | A walk that succeeds has laid the flattening of the tree over what was there and counted its leaves, gitlinks left out. |
| CheckoutTheorems.WalkComplete | git-plain-clone/internal/gitp/writer.go:37-86 | With distinct names per tree and nothing in the way, the walk succeeds on every usable tree. |
| CheckoutTheorems.CountsLeaves | git-plain-clone/internal/gitp/writer.go:88-115 | The count made before the walk is the number of leaves of the tree. |
| CheckoutTheorems.Materialize | git-plain-clone/internal/gitp/writer.go:18-35 | The number reported equals the number counted beforehand; the output is the flattening of the tree. Successful or not, nothing changes but the output directory and what valid names reach from it through real directories. |
| CheckoutTheorems.ReportedIsPresent | git-plain-clone/internal/gitp/writer.go:18-86 | If there was no file below the output directory, the number reported is the number of files below it exactly when no two leaves share a path. |
| CheckoutTheorems.DuplicateNames | git-plain-clone/internal/gitp/writer.go:37-86 | A tree object with two files of one name: the walk succeeds and reports two, and one file is there. |
| CheckoutTheorems.DistinctPaths | git-plain-clone/internal/gitp/writer.go:37-86 | With distinct names per tree, no two leaves share a path. |
| Fetch.ParseHeaderOID | git-plain-clone/internal/gitp/fetch.go:88-107 | Stops at the first header line that is the key and a full id, or at the blank line, or at an unfinished line, and returns what HeaderOID defines. |
| Fetch.HeaderFirst | git-plain-clone/internal/gitp/fetch.go:88-107 | An object that starts with the key and an id in hex names that id. |
| Fetch.UnHexExact | git-plain-clone/internal/gitp/fetch.go:100-103 | An id is read from exactly the texts that spell it, two digits a byte, high digit first, in either case. |
| Fetch.PeelToCommit | git-plain-clone/internal/gitp/fetch.go:71-86 | Follows tags through the store for at most eight objects; the result is the Peel of PeelExact. |
| Fetch.PeelExact | git-plain-clone/internal/gitp/fetch.go:71-86 | Peeling finds a commit exactly when a chain of tags, each naming the next, leads to it within the bound. |
| Fetch.LoadResponse | git-plain-clone/internal/gitp/fetch.go:37-47 | Extract, parse and resolve succeed exactly when the response describes a store, which they then build; it holds as many objects as the pack header says. |
| Fetch.DescribedOnce | git-plain-clone/internal/gitp/fetch.go:37-47 | A response describes at most one store. |
| ObjectIds.DescribedNamed | git-plain-clone/internal/gitp/fetch.go:37-47 | Whatever is found under an id after a response was loaded has that id, and it is the hash of its data under the literal name of its type. |
| Fetch.Clone | git-plain-clone/internal/gitp/fetch.go:37-68 | Success means the wanted commit's tree is checked out; failure means some stage had cause; in both cases nothing changes but the output directory and what is reached from it as in Materialize. |
| EndToEnd.EncodedSolution | git-plain-clone/internal/gitp/fetch.go:41-47 | For any order of objects, choice of delta kinds and delta programs, resolving yields exactly the intended objects. |
| EndToEnd.WrittenIsDescribed | git-plain-clone/internal/gitp/fetch.go:37-47 | A response that carries a written pack, framed or bare, describes exactly the writer's objects. |
| EndToEnd.EndToEnd | git-plain-clone/internal/gitp/fetch.go:37-68 | However the server encoded and framed the objects, all with ids under the literal names of their types, and over up to seven tags, a clone succeeds, reports the number of leaves and changes the output by exactly the files of the tree that the commit names. |
| EndToEnd.EndToEndByName | git-plain-clone/internal/gitp/fetch.go:16-69 | The same from the name on: the best ref that the server lists for it decides what is written. |
| EndToEnd.ChainLeads | git-plain-clone/internal/gitp/fetch.go:48-62 | From tags that name one another and a commit, as servers write them, the tree is found that the commit names. |
| Example.IsServed | git-plain-clone/internal/gitp/fetch.go:37-68 | A tag, a commit, a tree and a file stored as an offset delta, with a compressor and a hash written out, meet every premise of EndToEnd. |
| Example.CloneOfExample | git-plain-clone/internal/gitp/fetch.go:37-68 | Cloning that repository into an empty place leaves the directory and the one file, put together from the delta. |
| ExampleBytes.ResponseInBytes | git-plain-clone/internal/gitp/pack.go:11-102 | The response that it clones, byte by byte: magic, version, count, entry headers, the offset, the delta, and the texts of the tree, the commit and the tag. |
| Batching.Batch.WouldOverflow | sqlite2meilisearch/src/sync.rs:281-284 | True exactly when the JSON array with the document in it breaks the 1024-document or the 8 MiB limit. |
| Batching.Batch.Push | sqlite2meilisearch/src/sync.rs:286-289 | Appends, and `bytes` stays the exact length of the JSON array. |
| Batching.GreedySplits | sqlite2meilisearch/src/sync.rs:70-84 | The batches are non-empty, keep both limits, and concatenate to the documents in order. |
| Batching.GreedyOptimal | sqlite2meilisearch/src/sync.rs:70-84 | No order-preserving split within the limits has fewer batches. |
| Batching.PushedAll | sqlite2meilisearch/src/sync.rs:72-84 | What the loop has sent when it ends, the open batch included, is the greedy split. |
| Source.Documents.Next | sqlite2meilisearch/src/source.rs:110-146 | Skips rows that yield nothing, returns the next document, and fails exactly on the first row that makes the list unacceptable in the sense of GenerateSnoc; counts and ids describe what was produced. |
| Source.GenerateSnoc | sqlite2meilisearch/src/source.rs:110-146 | Taking rows one at a time agrees with the definition over whole lists: acceptable are exactly the lists without a broken row whose documents have ids, all different, and at most 8 MiB less two bytes each. |
| Source.GenerateKeyed | sqlite2meilisearch/src/source.rs:131-142 | Generated documents have pairwise different ids, and each fits into a batch of its own. |
| Sync.EnumerateTarget | sqlite2meilisearch/src/sync.rs:220-250 | The paging loop ends; on success it has seen distinct ids of the index, each once, and returns those that are not wanted and the number of those that are; it misses ids only behind an empty page, and fails only when the server does. |
| Sync.RemoveStale | sqlite2meilisearch/src/sync.rs:214-264 | Refuses unless every wanted id was seen; then only unwanted documents go, as many as it reports, and no delete precedes the enumeration. If all wanted ids are there, it fails only when the server does. |
| Sync.DeleteAll | sqlite2meilisearch/src/sync.rs:256-263 | On success exactly the stale ids are gone from the index; every delete sent on the way is a safe one, and the uploads stay as they were. |
| Sync.UploadAll | sqlite2meilisearch/src/sync.rs:70-84 | On success every batch of the greedy split was sent and the index holds the documents over what was there. |
| Sync.Run | sqlite2meilisearch/src/sync.rs:53-95 | Success exactly when the rows are acceptable as a list (none broken, ids all different, none too large), some row gives a document or an empty result is allowed, and the server fails no request and hides nothing behind an empty page. Then the index holds each document of the rows under its id and nothing else, uploads were the greedy batches, and the number reported is that of old ids not generated. In every run, no delete goes out before all rows are converted, all batches succeeded and all generated ids were seen, and no generated id is deleted. |
| Sync.SomeOrder | sqlite2meilisearch/src/sync.rs:220-233 | Servers as modelled exist: some order lists every set of ids. |
| Sync.ExactlyGenerated | sqlite2meilisearch/src/sync.rs:85-95 | The final count check is enough: removing unwanted documents down to the wanted number leaves exactly the wanted ones. |
| Transform.AcceptedExactly | sqlite2meilisearch/src/transform.rs:65-101 | Converting succeeds exactly when every value inside lies within depth 64, containers keep their limits, integers fit 64 bits and fractions are finite as doubles. |
| Transform.RoundTrip | sqlite2meilisearch/src/transform.rs:65-135 | An accepted value comes back with the same structure, integers and strings, and its fractions as the same doubles. |
| Transform.ExactRoundTrip | sqlite2meilisearch/src/transform.rs:65-135 | It comes back unchanged exactly when every fraction inside is the shortest text of its double. |
| Transform.DigitsLost | sqlite2meilisearch/src/transform.rs:74-79 | The double nearest to 0.1, written out in full, comes back as 0.1. |
| Transform.ScriptRoundTrip | sqlite2meilisearch/src/transform.rs:65-135 | A script value that converts to JSON converts back to itself exactly when no array or map inside exceeds the reader's limits. |
| Transform.SeenAs | sqlite2meilisearch/src/transform.rs:65-101 | Which script value each accepted JSON value becomes: null the unit, booleans and strings themselves, integers integers, fractions their doubles, lists and objects the same element by element. |
| Transform.ShownAs | sqlite2meilisearch/src/transform.rs:103-135 | The same from script values to JSON. |
| ProbeFrames.Probe.Append | ssh-auto-port/src/probe.rs:66-72 | Appends within 1 MiB, else changes nothing and fails. |
| ProbeFrames.Probe.ReadFrame | ssh-auto-port/src/probe.rs:29-64 | One call has the result and leaves the buffer and channel that Read says. |
| ProbeFrames.FramesMatch | ssh-auto-port/src/probe.rs:29-64 | Whatever the chunks, the frames are the parts of the byte stream that markers end, but for a line end dropped in front; if the channel just ends, none is missing. |
| ProbeFrames.MarkerSpelled | ssh-auto-port/src/probe.rs:17 | The marker is "---SYNC---". |
| ProbeFrames.NeverOversized | ssh-auto-port/src/probe.rs:66-72 | If markers come often enough for the chunk size, reading never gives up on an oversized frame. |
| ProbeText.ParseFrame | ssh-auto-port/src/probe.rs:75-97 | The loop over trimmed lines collects the ports of all lines, and fails exactly when there is content and no line of it is understood. |
| ProbeText.RefusedExactly | ssh-auto-port/src/probe.rs:75-97 | A frame is refused exactly when some line is not blank and no such line is understood. |
| ProbeText.PortsExactly | ssh-auto-port/src/probe.rs:75-97 | The ports of a frame that is not refused are exactly those that some line of it gives. |
| ProbeTheorems.ChunkingInvariance | ssh-auto-port/src/probe.rs:29-97 | Two ways to cut one stream give the same results frame by frame, up to the first buffer overflow, even where a marker or the line end after it is cut. |
| ProbeTheorems.ReturnInFront | ssh-auto-port/src/probe.rs:75-97 | A carriage return in front of a frame does not change what it means. |
| ProbeTable.LineParses | ssh-auto-port/src/probe.rs:99-120 | A line as the kernel prints it is understood and yields its port exactly when it listens on 127.0.0.1 or 0.0.0.0. |
| ProbeTable.AddressSpelled | ssh-auto-port/src/probe.rs:99-120 | Port 8080 on 127.0.0.1 stands in the table as 0100007F:1F90. |
| ProbeTable.TableParses | ssh-auto-port/src/probe.rs:75-120 | Parsing a printed socket table gives exactly the listening ports. |
| PortSearch.FindFreeNear | ssh-auto-port/src/forward.rs:158-170 | The nested loops probe candidates outward, above before below, and return what NearestFree and SearchFails characterize; a bind error ends the search. |
| PortSearch.NearestFree | ssh-auto-port/src/forward.rs:158-170 | The port found is the free one nearest within 200 and 1024-65535, the upper one of two as near; none is found exactly when all candidates are in use. |
| PortSearch.SearchFails | ssh-auto-port/src/forward.rs:158-170 | The search fails exactly when a port that cannot be bound for another reason is preferred to every free one. |
| ForwardOutcomes.SearchOutcome | ssh-auto-port/src/forward.rs:158-170 | The search yields the free candidate to which all preferred ones are in use, and nothing when there is none or one that fails oddly is preferred. |
| Forwards.AddForward | ssh-auto-port/src/forward.rs:172-213 | Binds the own port if it can; else nothing with skip, the nearest free port without it, a retry when there is none; a bind error is passed on. |
| Forwards.SetupExact | ssh-auto-port/src/forward.rs:158-197 | A forward is set up on the own port exactly if that is free; when it is in use, skip means skipping, and without skip the nearest free port is taken, or a retry follows when all are in use. |
| Forwards.ForwardManager.Reconcile | ssh-auto-port/src/forward.rs:50-105 | The new state is Reconciled of the old one: stale ports retired first, then due ports attempted in ascending order; ForwardOutcomes.PortSettles says where each ends up. |
| ForwardRuns.RoundKeeps | ssh-auto-port/src/forward.rs:50-105 | After a round the target is split among forwarded, skipped and scheduled ports, nothing else is kept, local ports are distinct and in place, and what was settled stays. |
| ForwardRuns.RunIsGood | ssh-auto-port/src/forward.rs:42-105 | The same after any sequence of rounds, on any sequence of machine states. |
| ForwardRuns.RunMode | ssh-auto-port/src/forward.rs:179-197 | With skip nothing is ever remapped; without it nothing is ever skipped. |
| ForwardRuns.RetriesApart | ssh-auto-port/src/forward.rs:67-101 | While a port stays wanted, an attempt after a failed one comes at least 30 seconds later. |
| ForwardOutcomes.PortSettles | ssh-auto-port/src/forward.rs:67-101 | For each due port, on the machine as it is at its turn, with the ports held that were forwarded before: its own port if that is free; if it is busy, skipped with skip, else the nearest free candidate; a retry in 30 seconds exactly when its own port fails oddly or no candidate can be had. |
| ForwardOutcomes.RunSettles | ssh-auto-port/src/forward.rs:42-105 | The same after any rounds from the start. |
| PollLoop.Poll | ssh-auto-port/src/main.rs:358-393 | The loop has reconciled, in order, with the filtered ports of every frame that parsed. |
| PollLoop.PollInvariance | ssh-auto-port/src/main.rs:368-389 | The forwards reached do not depend on how the probe's output was cut into chunks. |
| PollLoop.FollowsTable | ssh-auto-port/src/main.rs:377-386 | After a frame with a printed table, the managed ports are exactly the ports p with lo <= p <= hi, not excluded, on which some line of the table listens. |
| PollLoop.GarbageIgnored | ssh-auto-port/src/main.rs:377-386 | A frame with content in which no line is understood leaves the forwards as they were. |
| InputMethod.Backend.Update | remote-text-input/src/wayland.rs:111-134 | Accepted exactly for the active focus and its epoch, a text of at most 3900 bytes without NUL, and a backend that is ready; then the requests for it go out with the right serial, otherwise none do. |
| InputMethod.Backend.Clear | remote-text-input/src/wayland.rs:136-144 | Empties the preedit if there is a focus, else sends nothing. |
| InputMethod.Backend.Handle | remote-text-input/src/wayland.rs:183-200 | The fields keep the values that the history of events defines: focus, epoch, serial modulo 2^32; FocusHistory says by positions in the history what those are. |
| FocusHistory.ActiveExact | remote-text-input/src/wayland.rs:183-200 | There is a focus exactly when some Activate lies before the last Done with no Deactivate between the two. |
| FocusHistory.AnnouncedExact | remote-text-input/src/wayland.rs:184-199 | An announcement is open exactly when an Activate or a Deactivate lies after every Done. |
| FocusHistory.EpochExact | remote-text-input/src/wayland.rs:192-199 | The epoch is the number of Done events with an announcement since the Done before, and the serial counts all Done events. |
| FocusHistory.FirstFocus | remote-text-input/src/wayland.rs:111-123 | After Activate and Done a text is accepted for epoch 1; before the Done, and after Deactivate and Done, none is. |
| InputMethod.RequestsDo | remote-text-input/src/wayland.rs:124-133 | A draft becomes the preedit; a submitted text is inserted once and leaves no preedit; the focus is untouched. |
| FocusHistory.CursorAtEnd | remote-text-input/src/wayland.rs:124-131 | A preedit is sent with its cursor at its end. |
| InputMethod.EventDoes | remote-text-input/src/wayland.rs:183-200 | Only a Done after an announcement moves the epoch, by one, and only it takes the preedit away. |
| InputMethod.ActiveIsWanted | remote-text-input/src/wayland.rs:184-198 | Without a new announcement, a Done does not change whether there is a focus. |
| InputMethod.SerialTells | remote-text-input/src/wayland.rs:132-133 | A commit carries the present serial exactly when no Done came after it, within 2^32 of them. |
| Sessions.Always | remote-text-input/src/main.rs:111-181 | The invariant holds after every possible interleaving. |
| Sessions.OneController | remote-text-input/src/main.rs:115-127 | At most one session is past the lock, and it is the one present longest. |
| Sessions.Isolation | remote-text-input/src/main.rs:111-152 | When an update is processed, the preedit is empty or that session's own draft for the present focus, and the session holds the lock. |
| Sessions.RepliesMatch | remote-text-input/src/main.rs:154-181 | The k-th reply answers the k-th update and goes to the session that made it; a session that waits has its reply or its update in the queue. |
| Sessions.InsertedAsAsked | remote-text-input/src/wayland.rs:117-133 | The inserted texts are the accepted submissions in order, each in the focus, active at that moment, that it was made for. |
| Sessions.NoFocusNoPreedit | remote-text-input/src/wayland.rs:136-200 | Without a focus no preedit is outstanding; every commit carries the number of Done events before it modulo 2^32. |
| Sessions.EpochsAdvance | remote-text-input/src/wayland.rs:192-199 | Epochs never go back, and a Done that follows an announcement moves on. |
| SessionProgress.AnswerTells | remote-text-input/src/wayland.rs:111-134 | In every run, when the backend takes an update, the answer is Ok exactly for the active focus and a proper text; then the text is the preedit or, submitted, was inserted into that focus; otherwise nothing was sent. |
| SessionProgress.ClearTells | remote-text-input/src/wayland.rs:136-144 | In every run, a Clear leaves no preedit and inserts nothing. |
| SessionProgress.AnsweredInTime | remote-text-input/src/main.rs:154-181 | Whatever else happens, once the backend has taken as many commands as were queued, the session that asked has its reply. |
| SessionProgress.LockMovesOn | remote-text-input/src/main.rs:115-152 | From every reachable state, a session in control whose browser is gone can clear up and hand the lock to the next in line, and needs only the backend for it. |
| SessionProgress.Typing | remote-text-input/src/main.rs:111-181 | A session that was handed the lock can have any proper text for the active focus typed: it becomes the preedit or is inserted, and the session is told so. |

## Left out

- HTTP transport, progress output, command lines, SSH connection and authentication, timeouts and task runtimes: input and output, or library behaviour.
- zlib, SHA-1 and SHA-256: parameters with the laws named above. The Rhai engine, SQLite and the Meilisearch server's inside: a row's outcome is an input, and the server is a map with a fixed listing order, failing requests and no other writer.
- Integers in Go are taken to be 64 bits wide. A target size below zero, or one too large to allocate, makes the Go runtime panic. The first is an error value here, and memory is not limited.
- ResolveDeltas.Confluence: when several deltas are faulty, which fault is reported depends on the order.
- The field PackOffset of an object is written and never read; it is not modelled. Errors are told apart by kind, not by message; the server's own message is kept whole, without the trimming.
- The capabilities that selectAdvertisedRef returns depend on the first line only and are not used later. Splitting them at white space is a parameter.
- File modes other than the executable bit, directories above the output directory, failures of the operating system and the Windows variants of the writer.
- Checkout.MaterializeTree: requires that no tree contains itself, because the walk does not check and would not end; Fetch.Clone and Refs.CloneRef inherit this.
- Delta.TakeArg: stands for seven written-out conditionals of the source.
- Creating the index, applying settings, polling tasks and writing the report.
- Source.GenerateKeyed: the document's id is an arbitrary partial function of the document; the characters that document_id admits are not modelled.
- Transform.RoundTrip: a zero with a minus sign and a zero are one value, and which of several faults is reported is left open.
- The marker of a probe frame that ends in a timeout counts as an end of the channel; the time limit of one read_frame is not modelled.
- ProbeTheorems.ChunkingInvariance: decoding to text is an arbitrary function that keeps a leading CR or LF apart from the rest, as lossy UTF-8 decoding does.
- Forwards.ForwardManager.Reconcile: listeners and tunnels are not modelled, only the ports they hold; port 0, which binds any free port, is recorded as 0 as in the source, and the port actually taken belongs to the machine.
- PollLoop.Poll: stopping all forwards at the end is not modelled.
- InputMethod.Backend.Handle: the event Unavailable ends the backend, and what follows it is not modelled; epochs do not wrap.
- Sessions: concurrency is modelled as labelled steps on values, not with threads; sessions cut off by shutdown are left out.
- The other tools of the repository: device, window and audio plumbing with thin logic.

# Formal model of the inventory editor's backend

This project models, in Dafny, the parts of the Go backend whose correctness depends on more than one
function: a locking protocol, a byte pipeline, two recursive-descent parsers, graph walks over schema
data, a shared price cache, and packed identifiers. Line numbers below are those of the Go files.
`dafny verify dfyconfig.toml` checks everything. Nothing here runs the Go program.

A function that computes with values is a Dafny function. A Go method that updates fields or buffers is
a method of a class, or a loop over an array, proved equal to such a function or to a property; what
the program promises is then proved about the function. A protocol is a state machine: each critical
section of the Go code is one atomic step, a run is any interleaving of steps of any number of callers,
and the theorems are about every state, or every pair of states, of every run.

| files | what they hold |
|---|---|
| `GCSessions`, `GCSessionRuns`, `GCSessionAnswers` | the Game Coordinator session manager: callers share one check per key, an account change drops everything in flight, and what each caller is told |
| `GameRefreshes`, `GameRefreshRuns` | game inventory refreshes: generations, cancellation, feature flags |
| `KeyValues`, `KeyValuesPrinting`, `KeyValuesReading`, `KeyValuesErrors`, `KeyValuesMerging` | the text KeyValues parser, with a printer as its specification: exactly what it accepts and rejects, and what repeated blocks add up to |
| `StoreKV`, `StoreKVPrinting`, `StoreKVErrors`, `StoreKVTrees` | the binary KeyValues reader, with a serialiser as its specification, what it rejects, and the trees it builds |
| `Framing`, `Crypto`, `Layers`, `Bounces`, `Channel`, `Handshake`, `Delivery`, `Duplex` | the Steam connection: framing, encryption, the layer stack, the reads before encryption, and what a whole connection delivers, one way and both ways |
| `Graphs`, `LootLists`, `Prefabs`, `PrefabChains` | walks of possibly cyclic schema graphs with a shared seen set |
| `CollectionRarities`, `InventoryNames` | joins that drop a key once its evidence is ambiguous |
| `PriceQueries`, `PriceCache`, `PriceCacheRuns`, `PriceCacheAnswers` | the price cache: key, order, single flight, staleness, transparency, and what each query is answered |
| `Words`, `GlobalIds`, `SteamIds` | 64-bit identifiers made of bit fields |
| `Craft`, `TradeUps`, `Armory` | trade-up requests and Armory purchases |
| `Prelude`, `Strings`, `LittleEndian` | shared value types, Go string helpers, fixed-width numbers |

## Where the code does not do what it may seem to

- A refresh begun while the connection is in conflict never stores its result, so the advice to retry
  (`backend/internal/app/service_operation_state.go:52`) leads nowhere and the recovery at lines 57-61 is
  not reached: `GCSessionRuns.ConflictRetryNeverStores`, `GCSessionRuns.ConflictRetryRun`.
- Switching the steam flag off keeps the per-app Steam inventories: `GameRefreshRuns.ServiceSnapshotsOutliveFlag`,
  `GameRefreshRuns.ServiceStoredWithFlagOff`.
- An empty block is treated differently at its own level and one level down:
  `KeyValuesMerging.EmptyBlockErases`, `KeyValuesMerging.EmptyBlockKeptOnlyAtTheTop`.
- The 32-bit frame length wraps near 2^32: `Framing.FrameRoundTripIff`.
- Padding is trimmed by its last byte only: `Crypto.AcceptedIff`, `Crypto.OtherPaddingIsAccepted`.
- Short data, a partial block and some last bytes panic in decryption: `Channel.ReceivePanicsIff`.
- A reply to an event that a layer raised while sending misses that layer: `Bounces.MissingTheRaiserIsHarmlessIff`,
  `Bounces.BouncedReplySkipsTheRaiser`. Framing and encryption raise none: `Channel.ConnectionDescends`.
- The answer to a request to encrypt leaves encrypted, with the key it is meant to convey, if a positive result is
  completed by the same read: `Handshake.AnswersLeaveAsRaisedIff`, `Handshake.AnswerLeavesSealed`.
- An encryption result is taken without a challenge: `Handshake.ResultWithoutChallenge`.
- A market name with a NUL in it shares its cache key with other names: `PriceQueries.SeparatorsClash`, `PriceQueries.SameKeyIffRows`.
  So does one with a U+0001: `PriceQueries.CurrenciesClash`.
- A clan with an instance other than 0 does not survive the way to its chat id and back: `SteamIds.ClanOfChat`.

## Model

| member | source | states |
|---|---|---|
| `GCSessions.Service.ActivateAccountSession` | backend/internal/app/service_gc_sessions.go:26-43 | cancels the account's context, opens a new one under the next epoch and empties the session map; the inventory is reset only when a different, non-empty Steam id is replaced |
| `GCSessions.Service.InvalidateAccountSession` | backend/internal/app/service_gc_sessions.go:45-53 | cancels and forgets the context, moves to the next epoch, empties the session map; nothing else changes |
| `GCSessions.Service.CurrentGCSessionKey` | backend/internal/app/service_gc_sessions.go:55-71 | an error and no change unless connected; else the key of the account (Steam id, account name or placeholder), app and epoch, a missing context being opened under a new epoch first |
| `GCSessions.Service.EnterEnsure` | backend/internal/app/service_gc_sessions.go:73-114 | the first critical section: ready if fresh, wait on a running check's channel, or own a new check |
| `GCSessions.Service.WakeEnsure` | backend/internal/app/service_gc_sessions.go:96-110 | after the wake-up: the error or readiness of the same key's ended check, or another round |
| `GCSessions.Service.FinishEnsure` | backend/internal/app/service_gc_sessions.go:130-145 | the owner's section: its entry, if it is still its own, is closed with the request's error and marked ready only under the unchanged current key; the result is superseded otherwise |
| `GCSessions.Service.MarkGCSessionReady` | backend/internal/app/service_gc_sessions.go:149-163 | marks whichever key is current now, keeping a check that is running |
| `GCSessions.Service.BeginRefreshInventory` | backend/internal/app/service_operation_state.go:20-33 | a refresh is rejected without an account, else goes loading under the current key, or under the empty key if there is none |
| `GCSessions.Service.EndRefreshInventory` | backend/internal/app/service_operation_state.go:35-64 | the outcome is stored only under the same current key; a session conflict changes the connection's state |
| `GCSessionRuns.RunInv` | backend/internal/app/service_gc_sessions.go:26-163 | the protocol's invariant holds in every state of every interleaving: contexts and channels are fresh, all keys carry the current epoch, every running check has exactly one live owner, every waiter will be released |
| `GCSessionRuns.NoLostWakeUp` | backend/internal/app/service_gc_sessions.go:86-95 | in every reachable state a waiter can go on already, or has a cancelled account context, or a live owner is checking for exactly its channel and any end of that check releases it |
| `GCSessionRuns.SingleFlight` | backend/internal/app/service_gc_sessions.go:112-114 | never two checks of one key in flight; only keys of the current epoch in the map, which is empty without a context; no channel is closed twice |
| `GCSessionRuns.OwnerNilMeansReady` | backend/internal/app/service_gc_sessions.go:130-145 | an owner returns nil only if its request succeeded, its key is still the current one, and its entry is marked ready at that moment |
| `GCSessionRuns.NilMeansReady` | backend/internal/app/service_gc_sessions.go:82-145 | whichever way a caller gets nil, the entry of its own key is marked ready under the current epoch: freshly if it just entered, and for a waiter or an owner by a check that has ended without an error |
| `GCSessionAnswers.EnterIs` | backend/internal/app/service_gc_sessions.go:73-114 | over every run, a caller that enters is refused exactly if the account is not connected, told nil exactly if its account's current key was left ready less than 30 seconds ago, and else waits for the key's running check or owns a new one |
| `GCSessionAnswers.OwnerIsTold` | backend/internal/app/service_gc_sessions.go:130-145 | the owner of a check gets exactly its request's error or nil if at the end the account is connected under the name it began with and was neither activated nor invalidated in between, and else the superseded error |
| `GCSessionAnswers.WaiterIsTold` | backend/internal/app/service_gc_sessions.go:86-110 | whoever wakes up waited for a check of its key that has ended; if nothing has touched the entry since, it gets exactly that check's error, or nil if the check left the key ready, and else goes round again |
| `GCSessionAnswers.AccountChangeIs` | backend/internal/app/service_gc_sessions.go:26-53 | an account change cancels the context, takes the next epoch and forgets every session; an activation opens a new context and resets the inventory exactly if it replaces another Steam id |
| `GCSessionAnswers.MarkIs` | backend/internal/app/service_gc_sessions.go:149-163 | marking leaves exactly the current key ready as of now and without an error, and its running check running |
| `GCSessionAnswers.BeginRefreshIs` | backend/internal/app/service_operation_state.go:20-33 | a refresh is refused without an account, and otherwise shows the old items as loading, under the key of the account, app 730 and the epoch if it is connected, and under the empty key if not |
| `GCSessionRuns.RefreshStays` | backend/internal/app/service_operation_state.go:32-38 | over any stretch of a run, a refresh in flight keeps its key, and the count of account changes stands still exactly if there was none |
| `GCSessionRuns.RefreshStoresIff` | backend/internal/app/service_operation_state.go:32-64 | over every run, an inventory refresh stores its outcome exactly when the account was connected at both ends under one identity and neither activated nor invalidated in between; else the inventory is untouched, and the connection's state changes only with a stored outcome |
| `GCSessionRuns.ConflictRetryNeverStores` | backend/internal/app/service_operation_state.go:37-60 | a refresh begun in the session-conflict state always ends superseded and never recovers the connection, against the advice the program shows (line 52) and its recovery branch (57-61) |
| `GCSessionRuns.ConflictRetryRun` | backend/internal/app/service_operation_state.go:20-64 | from every connected start there is such a run: a refresh ends in a conflict, and its retry fetches items, is dropped, and leaves the connection in conflict and the inventory loading |
| `GameRefreshes.MultiGame.CancelAllGameRefreshes` | backend/internal/app/service_multigame.go:355-361 | every running refresh is cancelled, forgotten and superseded, whatever order the map is walked in |
| `GameRefreshes.MultiGame.ClearGameInventories` | backend/internal/app/service_multigame.go:335-348 | the same for the keys that end in the game's id, and their snapshots are dropped; other keys are untouched |
| `GameRefreshes.MultiGame.ClearAllGameInventories` | backend/internal/app/service_multigame.go:350-353 | all refreshes are cancelled and all snapshots dropped |
| `GameRefreshes.MultiGame.UpdateSettings` | backend/internal/app/service_operation_state.go:134-145 | the new flags, with everything of the games that are switched off cleared |
| `GameRefreshes.MultiGame.BeginRefreshGameInventory` | backend/internal/app/service_multigame.go:147-186 | a refresh begins only with the flag on and an account connected; it cancels and supersedes an older one of its key |
| `GameRefreshes.MultiGame.BeginRefreshSteamInventoryService` | backend/internal/app/service_multigame.go:259-301 | the same for a per-app Steam inventory, after the checks of app and Steam id |
| `GameRefreshes.MultiGame.EndRefreshGameInventory` | backend/internal/app/service_multigame.go:214-233 | the result, or an error snapshot, is stored only under an unchanged generation |
| `GameRefreshRuns.RunInv` | backend/internal/app/service_multigame.go:147-361 | in every reachable state a running refresh holds its key's last generation and live context, or its context is cancelled; and a game whose flag is off has neither snapshots nor refreshes |
| `GameRefreshRuns.FlagOffNothingStored` | backend/internal/app/service_operations.go:90-100 | in every interleaving, while the tf2, dota2 or steam flag is off no account has a snapshot under that game's key |
| `GameRefreshRuns.StartGameIff` | backend/internal/app/service_multigame.go:147-186 | a game refresh starts exactly with that game's flag on, an account connected and a Steam id, under the trimmed id, NUL and the game's name; it then takes the next generation, cancels the older context and shows the old items as loading, and otherwise nothing changes |
| `GameRefreshRuns.StartServiceIff` | backend/internal/app/service_multigame.go:259-301 | the same for a per-app refresh, which also needs a positive app and a Steam id that is a positive number of 64 bits |
| `GameRefreshRuns.CurrentIff` | backend/internal/app/service_multigame.go:172-176 | a running refresh keeps the last generation exactly while nothing supersedes it: a newer refresh of its key, a cleared flag, an account change |
| `GameRefreshRuns.RefreshStoresIff` | backend/internal/app/service_multigame.go:214-231 | over every run, a finished refresh stores its result exactly when nothing superseded it since it began, and its context was cancelled early exactly when something did |
| `GameRefreshRuns.FlagsSupersede` | backend/internal/app/service_multigame.go:335-342 | a settings change supersedes a running refresh exactly if it switches that key's game off |
| `GameRefreshRuns.ServiceSnapshotsOutliveFlag` | backend/internal/app/service_multigame.go:331-348 | switching the steam flag off leaves per-app Steam inventories and their refreshes alone: their keys do not end in the suffix tested |
| `GameRefreshRuns.ServiceStoredWithFlagOff` | backend/internal/app/service_multigame.go:206-301 | there is such a run from every connected start with the flag on and a numeric Steam id: the flag is switched off during a per-app refresh, and its result is stored all the same |
| `Strings.SuffixIffSameID` | backend/internal/app/service_multigame.go:236-238 | for ids without NUL, the suffix test on a key finds exactly the keys of that id, whatever the account part is |
| `Strings.TrimSpaceIs` | backend/internal/app/service_multigame.go:236-238 | a trimmed text is what is left without the white space at both ends |
| `KeyValues.Parser.SkipSpaceAndComments` | backend/internal/econ/keyvalues.go:116-131 | the cursor moves past exactly the white space and line comments |
| `KeyValues.Parser.ReadQuotedToken` | backend/internal/econ/keyvalues.go:155-180 | the unescaped text up to the closing quote, or the error of a missing one |
| `KeyValues.Parser.ReadOneToken` | backend/internal/econ/keyvalues.go:133-153 | a quoted token, a bare one up to white space or a brace, or the error |
| `KeyValues.Parser.MergeObjects` | backend/internal/econ/keyvalues.go:101-114 | later keys win, and two blocks that both have children are merged, whatever the order of iteration |
| `KeyValues.Parser.ParseBlock` | backend/internal/econ/keyvalues.go:58-99 | the cursor parser computes the grammar's object and stops at the grammar's rest, or fails with its error; it ends on every input |
| `KeyValues.ParseKeyValues` | backend/internal/econ/keyvalues.go:49-56 | the whole parser, byte-order mark included |
| `KeyValuesPrinting.ReadQuotedBack` | backend/internal/econ/keyvalues.go:155-180 | every text of bytes has an escaped form, which is read back as the text whatever follows |
| `KeyValuesPrinting.ParseDocBack` | backend/internal/econ/keyvalues.go:58-99 | reading any printed document, with any gaps and comments, adds exactly what it denotes |
| `KeyValuesPrinting.ParsePrinted` | backend/internal/econ/keyvalues.go:49-99 | a whole printed file parses to its meaning: with or without a mark, with bare tokens up to a brace or the end, with a comment at the end; a stray closing brace at the top level ends the file silently |
| `KeyValuesPrinting.GapsDoNotMatter` | backend/internal/econ/keyvalues.go:116-131 | two files with the same tokens and blocks parse alike, whatever white space and comments are between the tokens, quoted or bare, marked or not |
| `KeyValuesPrinting.TreeRoundTrip` | backend/internal/econ/keyvalues.go:58-99 | for every tree of string leaves and blocks, every order of its keys at every level and every layout of it, parsing the printing returns the tree |
| `KeyValuesPrinting.EveryTreeIsPrinted` | backend/internal/econ/keyvalues.go:58-99 | every such tree, whatever bytes its keys and values have, is printed in some way and read back from it |
| `KeyValuesReading.ParseIff` | backend/internal/econ/keyvalues.go:49-180 | for every text and tree, parsing gives the tree exactly if the text is a printing, in some order, layout and escaping, of a document that denotes the tree |
| `KeyValuesErrors.ErrorIff` | backend/internal/econ/keyvalues.go:58-180 | for every text, parsing fails with an error exactly if the text is a document that breaks off at some depth: in a block without its brace, at a brace where a key or a value should be, in a quoted token without its quote, or after a key without a value |
| `KeyValuesErrors.NoEOFInToken` | backend/internal/econ/keyvalues.go:133-137 | the error of a token at the end of the file is never returned: every caller has looked before |
| `KeyValuesMerging.MergedBlock` | backend/internal/econ/keyvalues.go:101-114 | along every path of keys that leads to a block with children in both bodies at each step, the two blocks at its end are merged |
| `KeyValuesMerging.MergedLookup` | backend/internal/econ/keyvalues.go:101-114 | for every other path, at the first step where it is not such a block in both, whatever the later body has replaces all that the earlier one has there, and what it lacks is kept |
| `KeyValuesMerging.EmptyBlockErases` | backend/internal/econ/keyvalues.go:86-114 | so an empty block at any depth below a block that is opened again erases what was there |
| `KeyValuesMerging.EmptyBlockKeptOnlyAtTheTop` | backend/internal/econ/keyvalues.go:86-114 | but an empty block opened again keeps its contents at its own level: the two treatments side by side |
| `StoreKV.Reader.StoreCString` | backend/internal/econ/store.go:144-157 | the bytes before the first NUL, or the error of a missing or late one |
| `StoreKV.Reader.ParseStoreKV` | backend/internal/econ/store.go:88-143 | the reader builds the node that the grammar's items add up to, and stops after them; it ends on every input |
| `StoreKVPrinting.ReadIff` | backend/internal/econ/store.go:88-143 | the reader accepts exactly the serialised lists of valid items, and consumes exactly their bytes |
| `StoreKVPrinting.StringAcceptedIff` | backend/internal/econ/store.go:144-157 | a string is accepted exactly when a NUL follows at most 65536 other bytes |
| `StoreKVErrors.ErrorIff` | backend/internal/econ/store.go:88-157 | for every input, the reader fails with an error exactly if the input is a list of items that breaks off, at some depth, in an item with that error: at the end of the data, in a string without a NUL in time, in a short number, or at an unknown kind, whose key is read first |
| `StoreKVErrors.BadStringIff` | backend/internal/econ/store.go:144-157 | a string is rejected as too long exactly if its first 65537 bytes have no NUL, and as cut off exactly if it is shorter and has none |
| `StoreKVTrees.BuildIff` | backend/internal/econ/store.go:88-143 | for every list of items, the tree built from it is the given one exactly if each of its values is that of the last item that sets the key, no other key is set, and the blocks show its children in order |
| `StoreKVTrees.TreeRoundTrip` | backend/internal/econ/store.go:88-143 | every serialisation of valid items that show a tree, in any order of the values, any spelling of the keys and with either end byte, is read as that tree and consumed exactly |
| `StoreKVTrees.EveryTreeIsSerialised` | backend/internal/econ/store.go:88-143 | every tree with lower-case NUL-free keys and values of their width is shown by some valid items |
| `Framing.TcpLayer.TryReadPacket` | backend/internal/steamcm/layer_tcp.go:103-132 | one frame off the front of the buffer, nothing if it is not whole, or an error with the bytes it has used up |
| `Framing.TcpLayer.HandleIncomingData` | backend/internal/steamcm/layer_tcp.go:66-85 | the packets of all frames the buffer and the new data complete; the rest stays buffered |
| `Framing.TcpLayer.HandleOutgoingData` | backend/internal/steamcm/layer_tcp.go:87-101 | one frame around the data |
| `Framing.DrainSplit` | backend/internal/steamcm/layer_tcp.go:66-85 | reading in two steps gives the same packets, or the same first error, as reading at once |
| `Framing.ChunkingIndependence` | backend/internal/steamcm/layer_tcp.go:66-85 | for every stream and every cut of it into pieces, the pieces give what the whole gives |
| `Framing.ReassemblyIsExact` | backend/internal/steamcm/layer_tcp.go:66-132 | for every list of messages and every cut of their frames, exactly those messages come out in order, and the beginning of a further frame stays buffered |
| `Framing.PrefixIsPartial` | backend/internal/steamcm/layer_tcp.go:104-113 | a proper prefix of a frame is kept, not read |
| `Framing.FrameRoundTripIff` | backend/internal/steamcm/layer_tcp.go:110-131 | a message survives its frame exactly when it is shorter than 2^32 - 8 bytes; a longer one wraps the 32-bit length and the read panics or misreads |
| `Framing.FrameIs` | backend/internal/steamcm/layer_tcp.go:87-101 | a frame is four bytes of length, the lowest first and modulo 2^32, the letters VT01, and the data |
| `Framing.OtherMagicFails` | backend/internal/steamcm/layer_tcp.go:110-131 | a whole frame with other letters fails and is used up |
| `Crypto.CryptBlocksEncrypt` | backend/internal/steam/crypto.go:123-126 | the buffer ends up with the cipher block chaining of the input (section 6.2 of NIST SP 800-38A) |
| `Crypto.CryptBlocksDecrypt` | backend/internal/steam/crypto.go:140-142 | the buffer ends up with the inverse chaining of the input |
| `Crypto.SymmetricEncryptWithIV` | backend/internal/steam/crypto.go:114-132 | the encrypted vector in front of the padded and chained data, or the key error |
| `Crypto.SymmetricDecryptWithIV` | backend/internal/steam/crypto.go:134-144 | the unchained data without its padding, or the key error, or the panic on a partial block |
| `Crypto.TrimPad` | backend/internal/steam/crypto.go:82-91 | trimming undoes padding for data of every length (section 6.3 of RFC 5652) |
| `Crypto.DecryptEncrypt` | backend/internal/steam/crypto.go:123-142 | unchaining undoes chaining, for every vector and length |
| `Crypto.EncryptDecrypt` | backend/internal/steam/crypto.go:123-142 | and the other way round |
| `Crypto.CbcIs` | backend/internal/steam/crypto.go:123-126 | each block of the output is the encryption of the data's block added bit by bit to the output's block before it, the first to the vector |
| `Crypto.XorIs` | backend/internal/steam/crypto.go:123-126 | every bit of a sum is set exactly if it is set in one of the two bytes |
| `Crypto.AESRoundTrip` | backend/internal/steam/crypto.go:34-49 | AESDecrypt undoes AESEncrypt for data of every length, whatever vector was drawn |
| `Crypto.HMACRoundTrip` | backend/internal/steam/crypto.go:51-80 | AESDecryptWithHMAC undoes AESEncryptWithHMAC for data of every length, whatever prefix was drawn: the recovered vector passes its own check |
| `Crypto.AcceptedIff` | backend/internal/steam/crypto.go:63-91 | exactly which cipher texts are accepted with a plain text: the chainings, under its HMAC's vector for some prefix, of it and any tail whose last byte is the tail's length, or of it alone if it ends in 0 |
| `Crypto.AcceptedIsEncryptionIff` | backend/internal/steam/crypto.go:51-80 | such a text has the first block of its plain text's encryption under that prefix, and is that encryption exactly if the tail is the standard padding |
| `Crypto.OtherPaddingIsAccepted` | backend/internal/steam/crypto.go:88-91 | every plain text, of every length, is also accepted from a cipher text that no encryption of it makes, since trimming reads one byte |
| `Crypto.KeyErrorIff` | backend/internal/steam/crypto.go:34-80 | each of the four operations takes exactly the keys of 16, 24 and 32 bytes, once there is a whole block to decrypt |
| `Crypto.DecryptPanicsIff` | backend/internal/steam/crypto.go:42-91 | for data without spare capacity, either decryption panics exactly if the data is shorter than a block, or, under a valid key, shorter than two blocks, not in whole blocks, or if its last decrypted byte exceeds the decrypted length |
| `Layers.SplitEvents` | backend/internal/steamcm/layer_stack.go:59-72 | the events of the direction and the others, each in their order |
| `Layers.OutgoingGoesDown` | backend/internal/steamcm/layer_stack.go:41-57 | for every list of layers and any events, the nested stack sends as the flat list does: down from layer to layer, and what a layer raises as incoming while sending goes up and down through the layers above it |
| `Layers.OutgoingGoesStraightDown` | backend/internal/steamcm/layer_stack.go:41-57 | if no layer answers a send with an incoming event, straight from the top layer to the bottom one |
| `Bounces.RepliesLeavePastTheRaiser` | backend/internal/steamcm/layer_stack.go:41-57 | for any layer under any layers and any events: what comes back from above for what the layer raised while sending leaves as it is, past that layer's outgoing handler |
| `Bounces.MissingTheRaiserIsHarmlessIff` | backend/internal/steamcm/layer_stack.go:41-57 | sending so equals sending with what comes back going through that handler exactly if the handler, as it is then, would leave those events and its own state unchanged |
| `Bounces.NothingComesBack` | backend/internal/steamcm/layer_stack.go:41-57 | nothing comes back to any layer of a list that does not answer what is sent with incoming events |
| `Bounces.BouncedReplySkipsTheRaiser` | backend/internal/steamcm/layer_stack.go:41-57 | two layers for which it is not harmless, whatever is sent |
| `Layers.IncomingGoesUp` | backend/internal/steamcm/layer_stack.go:23-39 | for every list of layers and any events, the nested stack is one pass from the bottom layer to the top one and one pass down again, the errors included |
| `Layers.RepliesGoDown` | backend/internal/steamcm/layer_stack.go:23-39 | for every list of layers, what layer i raised goes through the outgoing handlers of the layers i, i - 1, ..., 0 and through none above, lower layers first; the top layer's own events start at the one below it |
| `Layers.OnlyTopReplies` | backend/internal/steamcm/layer_stack.go:23-39 | if only the top layer replies, the state events come out in front and the replies then go down through every layer below |
| `Layers.OthersAreForwarded` | backend/internal/steamcm/layer_stack.go:23-57 | a stack of any depth loses, alters and duplicates no event of another direction, in either processing |
| `Layers.RaisedBelowComesFirst` | backend/internal/steamcm/layer_stack.go:23-39 | what a lower layer raised besides incoming events goes past the layers above it, unprocessed, in front of what they return |
| `Channel.EncryptedLayer.HandleIncomingData` | backend/internal/steamcm/layer_encrypted.go:87-196 | decryption once encrypted, else the handshake: version, universe, key and challenge checks, the answer, the result; a panic of the cipher is a panic of the layer |
| `Channel.ReceivePanicsIff` | backend/internal/steamcm/layer_encrypted.go:87-98 | once encrypted, received data panics exactly if there is no encrypter, or it is one of the texts that decryption panics on: shorter than a block, or under a valid key shorter than two, not in whole blocks, or ending in a byte above its length |
| `Channel.ConnectionDescends` | backend/internal/steamcm/layer_encrypted.go:58-85 | framing and encryption, with or without encryption on, answer nothing that is sent with an incoming event, nor do they under layers that do not either |
| `Channel.ConnectionSendsStraightDown` | backend/internal/steamcm/layer_tcp.go:39-64 | so under such layers everything sent goes straight down through both |
| `Channel.EncryptedLayer.ProcessIncoming` | backend/internal/steamcm/layer_encrypted.go:37-57 | received data is handled, all other events pass unchanged and in order |
| `Channel.EncryptedLayer.ProcessOutgoing` | backend/internal/steamcm/layer_encrypted.go:58-85 | data is encrypted once the channel is, all other events pass unchanged and in order |
| `Delivery.EncryptOne` | backend/internal/steamcm/crypto.go:12-42 | once encrypted, with either kind of encrypter, the other side's decryption returns what was sent |
| `Delivery.SendPayloads` | backend/internal/steamcm/layer_stack.go:41-57 | the two-layer stack sends each payload as the frame of its encryption, in order |
| `Delivery.ReceiveChunks` | backend/internal/steamcm/layer_stack.go:23-39 | the two-layer stack returns the decryptions of exactly the frames that a sequence of reads completes |
| `Delivery.PayloadsAreDelivered` | backend/internal/steamcm/layer_stack.go:8-57 | two ends with one key: whatever payloads one stack sends, and however their bytes are cut into reads, the other stack returns exactly those payloads in order and is left as it was |
| `Duplex.RunInv` | backend/internal/steamcm/conn.go:109-189 | in every run of two encrypted ends that send and read in any order, what is buffered and under way to an end is exactly the frames of the payloads still to come out there |
| `Duplex.NoStepFails` | backend/internal/steamcm/conn.go:109-189 | no send of a payload that fits a frame and no read fails at any point of such a run |
| `Duplex.BothAreDelivered` | backend/internal/steamcm/conn.go:109-189 | in both directions at once and however the bytes are cut into reads, what has come out at an end is a beginning of what went in at the other, in order, and all of it once nothing is under way |
| `Handshake.ReadIsTakenIff` | backend/internal/steamcm/layer_encrypted.go:87-163 | a read without a positive result is taken exactly if each of its packets parses and each request to encrypt has version 1, this universe and an answer; else it is rejected |
| `Handshake.ReadBeforeOpening` | backend/internal/steamcm/layer_stack.go:23-39 | every read of a channel not encrypted yet, under any layers, that does not fail: first the answers to all requests before a positive result, then the news of the result, then what the layers above make of the decrypted rest; with the layer's state after it |
| `Handshake.AnswersLeaveAsRaisedIff` | backend/internal/steamcm/layer_encrypted.go:58-196 | the answers of a read leave as they were raised exactly if there is none, or no layer is above, or the read completes no positive result; otherwise each leaves encrypted under the last key answered with |
| `Handshake.AnswerLeavesSealed` | backend/internal/steamcm/layer_encrypted.go:113-196 | such a read: a request and a positive result in one piece, under any layers at all |
| `Handshake.HandshakeAnswerIsFramed` | backend/internal/steamcm/layer_encrypted.go:113-163 | a read that completes a request to encrypt and nothing else: with any layers above, or none, the answer leaves framed and unencrypted, the layers above see none of it, and the channel encrypts with the 32 bytes that the answer carries, in the HMAC kind with their first 16 as the secret exactly if there was a challenge |
| `Handshake.HandshakeOpens` | backend/internal/steamcm/layer_encrypted.go:113-196 | a request and a positive result in reads of their own: the answer to the drawn key and the challenge leaves, and the channel encrypts with that key, under an HMAC with its first 16 bytes exactly if there was a challenge |
| `Handshake.HandshakeDelivers` | backend/internal/steamcm/layer_encrypted.go:113-196 | a peer that has that key, and takes the kind of encrypter by its challenge, receives exactly the payloads sent after the handshake, for every cut |
| `Handshake.ResultWithoutChallenge` | backend/internal/steamcm/layer_encrypted.go:184-196 | a positive result is taken without a challenge before it; without an encrypter any data then panics in either direction, with one sending does not and receiving panics exactly on the texts that decryption panics on |
| `LootLists.Search` | backend/internal/econ/trade_up_items.go:76-93 | one call: the lists it marks, unless it finds the target, do not have it and lead only to marked lists; it ends on every graph |
| `LootLists.LootListContains` | backend/internal/econ/trade_up_items.go:76-93 | with an empty seen set, true exactly when the target is an entry of some list reachable through nested lists, for every graph, cycles included |
| `LootLists.FoundIff` | backend/internal/econ/trade_up_items.go:76-93 | that is, when a path from list to nested list leads to one that has it |
| `LootLists.ResolveTF2LootList` | backend/internal/econ/tf2_schema.go:334-359 | a container's contents have each leaf exactly once for every reachable list that holds it, whatever the order of the keys, for every graph |
| `LootLists.LeavesAre` | backend/internal/econ/tf2_schema.go:334-359 | a list's leaves are its entries, but for three names, that are no list or an empty one; the other entries are nested lists |
| `Graphs.ClosedHasReachable` | backend/internal/econ/trade_up_items.go:76-93 | a set of nodes that its edges do not leave has everything reachable from its nodes, as the searches use it |
| `Prefabs.MergePrefab` | backend/internal/econ/related_items.go:120-145 | the merging walk as the program makes it, with its shared seen set |
| `Prefabs.CollectPrefabChain` | backend/internal/econ/tf2_schema.go:214-228 | the listing walk as the program makes it, with its shared seen set |
| `Prefabs.WalksAgree` | backend/internal/econ/related_items.go:120-145 | both walks see the same prefabs, and the merge inherits from the chain's objects in the chain's order, for every graph |
| `Prefabs.MergedLookup` | backend/internal/econ/related_items.go:120-145 | a merged key has the object's own value, or else that of the first prefab of its chain that has the key, and is absent if none has it |
| `Prefabs.ChainIsReachable` | backend/internal/econ/tf2_schema.go:214-228 | the chain lists exactly the reachable prefabs, each once, diamonds and cycles included |
| `PrefabChains.ChainIs` | backend/internal/econ/tf2_schema.go:214-228 | the chain has exactly the prefabs on the lines that start at a field of the object's text under the key prefab and go on by the fields of each prefab's text, each once |
| `PrefabChains.ChainOrder` | backend/internal/econ/tf2_schema.go:219-226 | what is reached from the first fields of the object's text comes before everything that is not, so an earlier name comes before a later one that it does not reach |
| `PrefabChains.MentionedBefore` | backend/internal/econ/tf2_schema.go:219-226 | a prefab that the object does not mention comes after one that mentions it |
| `PrefabChains.EarlierNameGives` | backend/internal/econ/related_items.go:128-143 | a key that the object lacks takes the value of the earliest name in its text that has the key, unless what the names before it reach has the key or that name |
| `CollectionRarities.NestedRarityIff` | backend/internal/econ/related_items.go:95-108 | a child list shows a rarity exactly when its name has the parent's stem in front and that rarity behind; no name shows two |
| `CollectionRarities.EvidentIff` | backend/internal/econ/related_items.go:95-108 | a rarity is shown for an item exactly by a list nested in another, named by that one's stem and one of the seven rarities, that has the item |
| `CollectionRarities.RaritiesOf` | backend/internal/econ/schema_parse.go:176-203 | an item gets a rarity exactly when it belongs to the collection and that is the only rarity shown for it, whatever the order of iteration |
| `CollectionRarities.Schema.ApplyCollectionLootListRarities` | backend/internal/econ/schema_parse.go:175-205 | every collection gets exactly those rarities and keeps its items |
| `CollectionRarities.RaritiesAreUnique` | backend/internal/econ/schema_parse.go:175-205 | two orders of iteration cannot give different rarities |
| `InventoryNames.LoadInventoryDescriptions` | backend/internal/econ/descriptions.go:16-79 | the index as built page by page, each asset claiming its name keys |
| `InventoryNames.NamePresentIff` | backend/internal/econ/descriptions.go:50-73 | a name key is present exactly when one class and instance pair claims it, with that pair, and marked ambiguous exactly when two do, never both |
| `InventoryNames.OrderDoesNotMatter` | backend/internal/econ/descriptions.go:50-73 | the presence, pair and mark of a name key do not depend on the order of the assets |
| `InventoryNames.KeysIs` | backend/internal/econ/descriptions.go:16-79 | an asset's keys are its three names, trimmed and in lower case, and each without a last part in parentheses |
| `InventoryNames.DescribedIs` | backend/internal/econ/descriptions.go:16-79 | an asset has the last description of its class and instance on its page, under its own id, or none |
| `InventoryNames.IdsAreIndexed` | backend/internal/econ/descriptions.go:16-79 | under an id stands the last asset that has it |
| `PriceCaches.PriceCache.BeginQuery` | backend/internal/dataservice/cache.go:63-83 | the first critical section: a fresh entry's answer, the running scan to wait for, or a new scan with the entry found |
| `PriceCaches.PriceCache.EndQuery` | backend/internal/dataservice/cache.go:89-109 | the second: a good scan renews the entry, a failed one falls back on the entry found if it is not too old; the channel is closed and the key released |
| `PriceCaches.PriceCache.AwaitFlight` | backend/internal/dataservice/cache.go:72-79 | a waiter gets its scan's outcome in its own order |
| `PriceCacheRuns.ActiveIffScanning` | backend/internal/dataservice/cache.go:72-107 | in every reachable state a key is active exactly while one query scans for it, never two; a scan's channel is open exactly while a query leads it, and has been closed exactly once ever after |
| `PriceCacheRuns.NoStuckWaiter` | backend/internal/dataservice/cache.go:72-79 | a waiter's channel is closed, or a live query is scanning for exactly its key and channel |
| `PriceCacheRuns.EntriesChangeOnSuccess` | backend/internal/dataservice/cache.go:91-97 | an entry changes only in a step that ends a successful scan of its key |
| `PriceCacheRuns.HitIsYoung` | backend/internal/dataservice/cache.go:67-70 | a query is answered without any scan exactly when its entry has not expired; the answer is then an earlier scan's of the same key, less than the ttl before the query read the clock |
| `PriceCacheRuns.StaleIff` | backend/internal/dataservice/cache.go:97-102 | a failed scan is answered exactly when the key's entry is less than seven ttl old as of the query's clock; the answer is that entry's, marked stale, with the error added |
| `PriceCacheAnswers.EntryIsLastScan` | backend/internal/dataservice/cache.go:94-96 | over every run, a key has an entry exactly if a scan for it has succeeded, and it is what the last one returned, with limits one and seven ttl later |
| `PriceCacheAnswers.EnterIs` | backend/internal/dataservice/cache.go:62-84 | a query is answered at once exactly if the last successful scan for its key ended less than the ttl before its clock, with that scan's prices in its own order and marked fresh; else it waits for the query scanning for its key, if there is one, and else scans |
| `PriceCacheAnswers.ScanIsAnswered` | backend/internal/dataservice/cache.go:91-108 | the query that scans is answered with what its scan returned, marked fresh; if it failed, with its key's entry within its limit, marked stale and the error added; and else with exactly that error |
| `PriceCacheAnswers.WaiterIsAnswered` | backend/internal/dataservice/cache.go:72-80 | whoever wakes up waited for a scan of its key that has ended, and gets the same error, or the same prices in its own order, errors and mark, as the query that led it |
| `PriceCacheRuns.AnswersAreScans` | backend/internal/dataservice/cache.go:63-109 | over every run, if quotes for a name depend only on currency and app, every answer, fresh, shared or stale, has exactly the items that a scan of that very query returns |
| `PriceQueries.SameKeyIffRows` | backend/internal/dataservice/cache.go:125-144 | two queries share a key exactly when their app agrees and the rows of their sorted names and currency do, split at the outer separator and each row at NULs, whatever is in the names and the currency |
| `PriceQueries.SameKeyIffPieces` | backend/internal/dataservice/cache.go:125-144 | so if the names, or the currencies, are free of the outer separator, exactly when the NUL-separated pieces of the sorted names, the currency and the app agree |
| `PriceQueries.SameKeyIff` | backend/internal/dataservice/cache.go:125-144 | so for names without separators, exactly when they have the same trimmed names, currency and app |
| `PriceQueries.SeparatorsClash` | backend/internal/dataservice/cache.go:134-143 | a name with a NUL in it shares its key with the two names it joins |
| `PriceQueries.KeyIs` | backend/internal/dataservice/cache.go:125-144 | the text of a key: the sorted distinct trimmed names between NULs, the currency or USD, and the app or 730, between U+0001 |
| `PriceQueries.CurrenciesClash` | backend/internal/dataservice/cache.go:134-143 | a name with the outer separator in it shares its key with its front part and a longer currency |
| `PriceQueries.AscendingIsUnique` | backend/internal/dataservice/cache.go:134 | the sorted names are determined by the set of names |
| `PriceQueries.LessIs` | backend/internal/dataservice/cache.go:134 | the order is that of the first place where two names differ, a beginning before what it begins |
| `PriceQueries.UniqueHas` | backend/pricescanner/scanner.go:235-245 | the normalised names are exactly the trimmed ones that are not blank |
| `PriceQueries.UniqueOrder` | backend/pricescanner/scanner.go:235-245 | and they come in the order in which they first occur |
| `PriceQueries.UniqueNames` | backend/pricescanner/scanner.go:235-245 | the loop keeps each trimmed name once, where it first occurs |
| `PriceQueries.ScanNames` | backend/pricescanner/scanner.go:145-196 | a scan of 1 to 100 names returns one item per name, in order, with exactly the quotes of that name; others are dropped |
| `PriceQueries.ScanIs` | backend/pricescanner/scanner.go:145-196 | exactly 1 to 100 names are answered, in order, with the quotes asked for in the trimmed upper-case currency or USD and the app or 730 |
| `PriceQueries.QuotesForIs` | backend/pricescanner/scanner.go:145-196 | a name has each quote as often as it was returned under that name |
| `PriceQueries.OrderItemsOf` | backend/internal/dataservice/cache.go:146-165 | the items for the requested names, in the order of the request |
| `PriceQueries.OrderItemsAre` | backend/internal/dataservice/cache.go:146-165 | each item is the last one of its name, every requested name that has an item is there, and they come in the order of the first requests |
| `PriceQueries.CachedItemsAreScanned` | backend/internal/dataservice/cache.go:146-171 | the items scanned for one query, put in the order of another with the same key, are those a scan of the other returns |
| `GlobalIds.SetOneField` | backend/internal/steam/globalid.go:10-42 | setting any of the four fields keeps the value's low bits and the three other fields |
| `GlobalIds.FieldsCover` | backend/internal/steam/globalid.go:8-42 | the four fields determine the whole word |
| `GlobalIds.FieldsAre` | backend/internal/steam/globalid.go:8-42 | where the four fields stand in the word |
| `GlobalIds.Connection.GetNextJobId` | backend/internal/steamcm/conn.go:79-87 | the counter moves by one, and the id is made of it, the start time, process 0 and box 0 |
| `GlobalIds.JobIdFields` | backend/internal/steamcm/conn.go:79-87 | the id's fields are the counter modulo 2^20, the start time modulo 2^30, and zeros |
| `GlobalIds.SameIdIff` | backend/internal/steamcm/conn.go:79-87 | two ids of a connection are equal exactly when 2^20 divides the distance of their counters |
| `GlobalIds.JobIdsAreDistinct` | backend/internal/steamcm/conn.go:79-87 | any 2^20 ids in a row are pairwise distinct, and none is the word of all ones |
| `SteamIds.SetOneField` | backend/internal/steam/steamid.go:158-188 | setting any of the four fields keeps the value's low bits and the three other fields |
| `SteamIds.FieldsCover` | backend/internal/steam/steamid.go:158-188 | the four fields determine the whole word |
| `SteamIds.FieldsAre` | backend/internal/steam/steamid.go:158-188 | where the four fields stand in the word |
| `SteamIds.Parse2Iff` | backend/internal/steam/steamid.go:28-28 | for every text, an account number and server are read exactly if the leftmost match of the pattern, its digits taken as far as they go, names them and the number fits 32 bits |
| `SteamIds.SteamId.SetFromSteam2String` | backend/internal/steam/steamid.go:68-88 | accepts exactly the texts whose leftmost match names an account number of 32 bits, and then sets all four fields; else changes nothing |
| `SteamIds.Steam2RoundTrip` | backend/internal/steam/steamid.go:68-88 | the text of an individual or invalid id is read back exactly if its universe is at most 4, as the individual desktop id of the same account in the universe given |
| `SteamIds.Steam2Is` | backend/internal/steam/steamid.go:316-323 | an individual or invalid id shows its universe, 0 for 1, the lowest bit of its account and the rest; other types have another text |
| `SteamIds.Steam2RestoresIff` | backend/internal/steam/steamid.go:316-323 | the text restores the id itself exactly for individual desktop ids of universe 0 to 4 read in their own universe |
| `SteamIds.ChatAndClanAre` | backend/internal/steam/steamid.go:271-289 | exactly clans have a chat id and exactly clan chats a clan id, and each changes the type and the instance and nothing else |
| `SteamIds.ClanOfChat` | backend/internal/steam/steamid.go:271-289 | the clan id of a clan's chat id is the clan, exactly if the clan's instance is 0 |
| `SteamIds.ChatOfClan` | backend/internal/steam/steamid.go:271-289 | the chat id of a chat's clan id is the chat |
| `TradeUps.TradeUpItemIDs` | backend/internal/app/service_tradeups.go:17-35 | the ids of a list of decimal strings, each non-zero and below 2^64, or the first error |
| `TradeUps.AskedForIs` | backend/internal/app/service_tradeups.go:17-35 | ids are asked for exactly by a list of texts that are positive numbers of 64 bits, and are those numbers |
| `TradeUps.FirstBadID` | backend/internal/app/service_tradeups.go:17-35 | otherwise the first element that is not one decides the error |
| `TradeUps.TradeUpInventoryItems` | backend/internal/app/service_tradeups.go:37-56 | the first item of each wanted id in inventory order, or nothing if one is missing |
| `TradeUps.ValidateTradeUpItems` | backend/internal/app/service_tradeups.go:58-86 | the first failing check, if any |
| `TradeUps.RefusalIs` | backend/internal/app/service_tradeups.go:58-86 | items are refused for being none, for a number other than 10, or 5 if covert, or for what is wrong with the first that is: not eligible, in storage, a souvenir, or of another rarity or StatTrak type, in this order |
| `TradeUps.SubmitTradeUp` | backend/internal/app/service_tradeups.go:88-125 | a request is sent exactly when enabled, connected, and its ids are valid, distinct, those of suitable items of one rarity and StatTrak type, and 10 in number, or 5 if covert; its body then encodes exactly those ids |
| `Craft.HasDuplicateIDs` | backend/internal/protocol/craft.go:40-49 | true exactly if some id occurs twice |
| `Craft.EncodeCraftRequest` | backend/internal/protocol/craft.go:8-22 | accepts exactly 5 or 10 distinct ids; the buffer written by index holds recipe, count and ids in order |
| `Craft.RequestIs` | backend/internal/protocol/craft.go:8-22 | two bytes of recipe, two of count, and eight for each id at its place |
| `LittleEndian.PutIs` | backend/internal/protocol/craft.go:8-22 | a number's i-th byte is the number divided by 256 to the i, modulo 256 |
| `Craft.RequestInjective` | backend/internal/protocol/craft.go:8-22 | a body determines its recipe and its ids |
| `Craft.DecodeCraftResponse` | backend/internal/protocol/craft.go:24-38 | the two errors, or the recipe and ids at their places |
| `Craft.AcceptedIsBody` | backend/internal/protocol/craft.go:24-38 | an accepted response is exactly the body of what is read from it |
| `Craft.BodyIsAcceptedIff` | backend/internal/protocol/craft.go:24-38 | a response body is read back exactly when its count fits 16 bits |
| `Armory.Service.Check` | backend/internal/app/service_armory.go:96-140 | a redemption goes ahead exactly when enabled, connected, against the current snapshot, for an offer in it at that cost, and the balance covers the whole quantity in exact arithmetic |
| `Armory.DeclaredIsExact` | backend/internal/app/service_armory.go:167-180 | for all 32-bit numbers that pass the check, neither the product nor the difference nor the counter of a step wraps, and the difference covers the cost |
| `Armory.Service.SendAll` | backend/internal/app/service_armory.go:167-180 | the declared balances start at the balance, fall by the cost at each step and never get below it; the loop stops after the first failed send |
| `Armory.Service.ApplyConfirmed` | backend/internal/app/service_armory.go:294-301 | the balance falls by the cost, or stays if it does not cover it |

## Left out

- Layers.OthersAreForwarded: layers are values with two handlers rather than objects behind an interface, and their state after an error is not followed; the connection is closed then.
- Channel.EncryptedLayer.HandleIncomingData: packet parsing, the RSA answer and its checksum are parameters; what the fields hold after an error is not stated.
- Delivery.PayloadsAreDelivered: starts from two encrypted ends with the same encrypter and payloads that fit a frame; that the handshake brings both ends there depends on the RSA answer.
- Channel.EncryptedLayer.ProcessIncoming: the wire and security layers that choose between this and a websocket connection, which needs neither framing nor encryption, and the packet, session and dispatch layers above are left out; the stack theorems in Layers hold for any of them.
- Crypto.DecryptPanicsIff: supposes that the data's capacity is its length, as for the packets that framing makes; with spare capacity, data shorter than a block under an invalid key is the key error instead of a panic.
- Handshake.AnswersLeaveAsRaisedIff: is about reads that do not fail; one that fails sends nothing, and the connection is closed then.
- Bounces.RepliesLeavePastTheRaiser: a single layer above may put what comes back among the events that were sent, rather than behind them; the events are the same.
- Duplex.BothAreDelivered: both ends are encrypted with the same key, and nothing under way is lost or reordered; how far the writes to the transport have got is the reader's choice.
- Crypto.AESRoundTrip: the block cipher is any permutation of blocks per key and the HMAC any function with a 20-byte result; no secrecy is claimed.
- GCSessionRuns.RunInv: the epoch is an unbounded number where the program has 64 bits; a caller's own context may be cancelled at any time; the requests themselves are arbitrary outcomes.
- GCSessions.Service.ActivateAccountSession: the armory, store and purchase fields that are reset with the inventory are left out, and so is the blanking of the Steam id on the path that prepares another account; the step takes whatever the connection holds. Its cancelling of game refreshes is in GameRefreshes.
- GameRefreshes.MultiGame.UpdateSettings: the clamping of the two pacing settings, and the call that stops a game's presence after the lock is released, are left out. Generations are unbounded numbers.
- GameRefreshes.MultiGame.EndRefreshGameInventory: time limits of a refresh are not modelled; a refresh may end at any time with any outcome.
- KeyValuesErrors.ErrorIff: the byte and the position that the error of an unexpected character names are left out. The cursor moves by whole runes, as in the program, but no result depends on their widths.
- KeyValuesPrinting.TreeRoundTrip: a missing map of children and an empty one are the same in the model, as all callers treat them.
- StoreKVErrors.ErrorIff: an end in the middle of a number and one before it are the same error.
- StoreKVTrees.TreeRoundTrip: lower-casing is a parameter, and 32-bit floating-point values are kept as their bits.
- Framing.TcpLayer.TryReadPacket: supposes 64-bit `int`, as on the supported platforms.
- LootLists.ResolveTF2LootList: entries stand for themselves; their names, and the sorting by name at each level, are left out. The tier labels of `lootListItems` are left out too.
- Prefabs.MergePrefab: strings.Fields is a parameter; nothing about it is needed.
- InventoryNames.NamePresentIff: supposes that no asset id is spelled like a name key or its mark; Steam's asset ids are decimal numbers, and name keys begin with a word. Keys of pairs join class and instance by an underscore, both decimal in Steam's answers.
- PriceQueries.SameKeyIffRows: upper-casing is a parameter.
- PriceQueries.ScanNames: providers run one after the other in some order; listings, errors and multipliers are left out, the cache clears the multipliers. The order of an item's quotes is any function of them: with the program's comparison, which is not transitive on mixed currencies, no sortedness is claimed.
- PriceCacheRuns.AnswersAreScans: is about the items of an answer; its errors, times and listings are those of the scan that was kept. A scan that panics, and the aliasing of an error list that a stale answer extends, are left out.
- GlobalIds.JobIdsAreDistinct: is about calls that do not overlap; the program adds to the counter and reads it in two steps.
- SteamIds.Steam2RoundTrip: the Steam3 texts and their parser are left out, since they do not read each other back.
- TradeUps.SubmitTradeUp: what follows the send, the wait for the response and the reconciliation of the inventory, is left out; case folding is a parameter.
- Armory.Service.SendAll: the pauses between sends, the wait for the reward and its reconciliation are left out.
- HTTP handlers, transports, the desktop and mobile shells, generated code, protobuf, compression, marketplace providers, authentication, container opening, images, localisation and logging: plumbing or remote behaviour.

# Credentials, headers, TLS state and release tooling, verified

A Dafny model of the parts of the repository where correctness is hardest to see: the
authenticating proxy's key store, its header pipeline and TLS state, and a few algorithms of the
command line and the profiler. `dafny verify dfyconfig.toml` checks all of it.

The model has three layers.

- **Key store.** `OptimisticDb` is the storage: column families, counters kept as merge operands,
  and transactions that commit only if no row they wrote was written by someone else since.
  `KeyStore` is the concurrent machine over it: verification, authentication, saving and deleting
  interleave at every database access, any activity may fail anywhere, and compaction regroups
  counter operands at will. `KeyNumbers`, `KeyProvenance`, `KeyIssuing`, `KeyLog`, `KeyIndex` and `KeyRevocation`
  prove what holds in every state of every run; `KeyRuns` extends runs, and `KeyWitnesses` builds those
  in which revoked keys come back or the key tables come apart. `Records` gives the same operations in the
  imperative form of the code, for a caller that runs alone.
- **Requests.** `HeaderValidation`, `HeaderPipeline` and `Scopes` follow a header from the
  credential to the upstream service. `Credentials`, `Base64` and `ServiceIds` are the codecs.
  `TlsClients`, `TlsCallers` and `TlsListener` are the outbound client cache and the inbound
  listener, first as classes, then as machines whose steps interleave.
- **Tools.** `Durations`, `LogScan`, `TrustScore`, `EnvFile` and `Profiles`.

`Bytes`, `Text`, `Ordering`, `Totals` and `Options` hold what these share.

Where the code falls short of what it is meant to do, the model follows the code, and the theorem
states the exact condition under which the intended property holds: see the rows ending in `Iff`, those
of `KeyWitnesses`, `CollisionServesOther`, `GeneratedKeyUsable` and `UpstreamSeesTokenScopes`.

## Model

| member | source | states |
|---|---|---|
| `MergeOperator.AdderMerge` | crates/auth/src/db.rs:188-205 | the loop stores the eight bytes of the sum of all operands modulo 2^64, counting malformed ones as 0 |
| `MergeOperator.RunningSumWraps` | crates/auth/src/db.rs:197-202 | wrapping at each addition gives the same word as wrapping once at the end |
| `MergeOperator.GroupingIrrelevant` | crates/auth/src/db.rs:188-205 | however operands are nested into partial merges, the merged value is that of the flat list |
| `OptimisticDb.RegroupKeepsValue` | crates/auth/src/db.rs:188-205 | compacting any stretch of pending operands keeps the counter's value |
| `OptimisticDb.FlushKeepsValue` | crates/auth/src/db.rs:188-205 | folding any prefix of the operands into the stored value keeps the counter's value |
| `KeyNumbers.StepKeepsNumbers` | crates/auth/src/api_keys.rs:293-360 | every step of every activity keeps the numbering invariant, including failed creates and compaction |
| `KeyNumbers.RunKeepsNumbers` | crates/auth/src/api_keys.rs:293-344 | the invariant holds in every state of every run from an empty store |
| `KeyNumbers.CommittedIdsAreConsecutive` | crates/auth/src/api_keys.rs:293-344 | under every interleaving the ids committed to a table are 1 to n in commit order, without gap or repeat, and n is the stored counter |
| `KeyNumbers.IdsDistinctIff` | crates/auth/src/models.rs:228-277 | ids ever repeat exactly when a table has handed out more than 2^64 of them |
| `KeyProvenance.StepKeepsBacked` | crates/auth/src/proxy.rs:400-502 | every step keeps all stored, fetched and half-saved keys traceable to an issue |
| `KeyProvenance.IssuedWasVerified` | crates/auth/src/proxy.rs:400-502 | every issue on record was committed by an activity that a verification step started |
| `KeyProvenance.AcceptedKeyWasIssued` | crates/auth/src/proxy.rs:1021-1074 | whenever a key is let through, an earlier verification issued a key of that id and digest; its key type and public key were, as a pair, in the owner list the service had at that moment, and its signature was valid; the answer is that issue's service and headers; the copy the request fetched was enabled and unexpired, whatever has become of the stored key since |
| `KeyProvenance.AcceptedKeyIsTheIssuedOne` | crates/auth/src/api_keys.rs:210-233 | without a digest collision among issued keys the accepted text is the issued key, character for character |
| `KeyIssuing.StrangerRefused` | crates/auth/src/models.rs:406-410 | no verification is possible for a missing service or for a pair of key type and public key that its owner list lacks, whatever the signature |
| `KeyIssuing.OnlyOwnersVerify` | crates/auth/src/proxy.rs:426-432 | every verification of every run names a pair that the service listed at that moment |
| `KeyIssuing.VerifyEnabledIff` | crates/auth/src/proxy.rs:406-456 | a verification succeeds exactly for a listed pair with a valid signature and at most eight distinct headers, each with a name of 1 to 256 name characters outside the ten refused ones and a printable value of up to 512 |
| `KeyIssuing.IssuedContents` | crates/auth/src/proxy.rs:443-474 | every issue on record in any run goes back to a listed owner's verification: its key is made of the prefix and bytes drawn then, its expiry is the later of the requested one and ninety days, its headers are the folded names of the request with shielded values |
| `KeyIssuing.AnsweredHeadersShielded` | crates/auth/src/proxy.rs:458-460 | in every run the headers of a let-through request are shielded headers of an owner's request, so that no plain personal value reaches the upstream through a key |
| `KeyIssuing.NewRecord` | crates/auth/src/proxy.rs:471-474 | the record set out to be stored is enabled, unnumbered, unused and dated now, under the issued key's id, with the later of the two expiries; nothing else in the state changes |
| `KeyIssuing.NewKeyLifetime` | crates/auth/src/proxy.rs:462-474 | a new key is accepted exactly while ninety days are not over or the requested expiry is not reached |
| `KeyIndex.RowIsHistory` | crates/auth/src/api_keys.rs:274-360 | in every run a key has a row exactly when the last event of its row was a create or a save, not a delete |
| `KeyIndex.EntryIsHistory` | crates/auth/src/api_keys.rs:274-360 | with distinct key ids, a key has an index entry exactly when the last event of its entry was a create or the second write of a save, not a delete |
| `KeyIndex.OvertakenIff` | crates/auth/src/api_keys.rs:274-360 | an entry outlives its row exactly when a delete committed between the two writes of a save, the second write followed, and since then the row was not written nor the key deleted again |
| `KeyIndex.UnindexedIff` | crates/auth/src/api_keys.rs:274-360 | a row lacks its entry exactly when a save wrote it after a delete and no entry was written since |
| `KeyIndex.SoundIff` | crates/auth/src/api_keys.rs:195-207 | every index entry leads to its record exactly when no such overtaken save remains |
| `KeyIndex.CompleteIff` | crates/auth/src/api_keys.rs:195-207 | every record outside any given set is indexed exactly when each key that lacks its entry lies in the set |
| `KeyIndex.InverseIff` | crates/auth/src/api_keys.rs:181-207 | in every state of every run with distinct key ids the tables are inverse exactly when no key has either defect |
| `KeyIndex.FailCompleteIff` | crates/auth/src/api_keys.rs:284-290 | abandoning a save between its writes keeps the index complete exactly when the key is indexed already or another save of it is under way |
| `KeyIndex.RunKeepsIndex` | crates/auth/src/api_keys.rs:274-360 | the index is sound, and complete but for saves between their writes, in every run with distinct key ids in which no delete commits between the writes of a save and no save that alone could index its key is abandoned there |
| `KeyIndex.QuiescentInverse` | crates/auth/src/api_keys.rs:181-207 | in such runs, when no save is between its writes, the tables are inverse and lookup by number finds a record exactly when lookup by key id does |
| `KeyRevocation.RevocationLastsIff` | crates/auth/src/api_keys.rs:245-291 | a deletion, or a disabling, holds in every continuation of a run exactly when no request, save or create under way holds a copy that it can still store |
| `KeyRevocation.StepKeepsGone` | crates/auth/src/api_keys.rs:245-360 | every step keeps such a revocation, and lets no request with the key through, unless a verification generates the key anew or an edit enables it |
| `KeyRevocation.StaysGone` | crates/auth/src/proxy.rs:1021-1074 | the same along every run |
| `KeyRevocation.DeletedIsGone` | crates/auth/src/api_keys.rs:347-360 | after a committed delete with no such copy held, neither lookup finds the key in any later state and no request with it is let through, until a verification generates it anew |
| `KeyRevocation.Restore` | crates/auth/src/api_keys.rs:245-291 | from every reachable state in which such a copy is held, a continuation stores the key in usable form again |
| `KeyWitnesses.FetchedRun` | crates/auth/src/proxy.rs:400-502 | for every service, owner's request and draw that yields a usable key there is a run from an empty store that issues the key and has a request holding a fetched copy that would be let through |
| `KeyWitnesses.DeletedKeyReturns` | crates/auth/src/proxy.rs:1038-1070 | every such run goes on so that the key is deleted, and then stored and enabled again by that request |
| `KeyWitnesses.DisabledKeyReturns` | crates/auth/src/api_keys.rs:245-252 | every such run goes on so that the key is disabled, and then enabled again by that request |
| `KeyIndex.CreateInverseIff` | crates/auth/src/api_keys.rs:293-344 | a create keeps the tables inverse exactly when its key id is not in use |
| `KeyWitnesses.DeleteDuringSaveDangles` | crates/auth/src/api_keys.rs:284-360 | every such run goes on to a state with no activity under way and an index entry without a row |
| `KeyWitnesses.FailedSaveLacksEntry` | crates/auth/src/api_keys.rs:284-360 | every such run goes on, by a delete, the request's row write and its failure, to a state with no activity under way and a row without an entry |
| `KeyRuns.StepKeepsClock` | crates/auth/src/api_keys.rs:293-360 | no row ever bears a stamp from the future and stamps only grow, which is what lets an undisturbed transaction commit |
| `Records.AddWithRetries` | crates/auth/src/api_keys.rs:306-326 | the retry loop succeeds exactly when one of the first ten attempts does and all before it were retryable |
| `Records.ApiKey.Create` | crates/auth/src/api_keys.rs:293-344 | all of counter, row and index change together or nothing does; the object keeps the number it drew even when the commit fails |
| `Records.ApiKey.Save` | crates/auth/src/api_keys.rs:274-291 | an unnumbered key is created; otherwise a failed second write leaves row and index apart; on success lookup by number finds the key |
| `Records.ApiKey.UpdateLastUsed` | crates/auth/src/api_keys.rs:245-252 | nothing but the time of use changes in a numbered key, and both lookups then find it |
| `Records.ApiKey.Delete` | crates/auth/src/api_keys.rs:347-360 | row and index entry go together or both stay |
| `Records.ApiToken.Save` | crates/auth/src/models.rs:214-277 | a new token gets the successor of the counter and its row; a numbered one is rewritten without touching counters; an error leaves the store alone |
| `HeaderValidation.ValidateHeaders` | crates/auth/src/validation.rs:26-87 | the loop computes the validation result on every input, errors included |
| `HeaderValidation.ValidateSucceeds` | crates/auth/src/validation.rs:26-103 | validation succeeds exactly when every entry passes its checks and at most eight distinct names remain after case folding |
| `HeaderValidation.ValidateStandardIff` | crates/auth/src/validation.rs:8-103 | with the proxy's own limits and list of refused names, spelled out, validation succeeds exactly on at most eight distinct storable headers |
| `HeaderValidation.ValidatedValues` | crates/auth/src/validation.rs:26-87 | the result has exactly the folded names, each with the value of its byte-order greatest spelling |
| `HeaderValidation.LowerCaseWins` | crates/auth/src/validation.rs:26-87 | if an all-lower-case spelling is present, its value is kept |
| `HeaderValidation.Revalidate` | crates/auth/src/validation.rs:26-87 | validating a validated map returns it unchanged |
| `HeaderValidation.ProtectHeaders` | crates/auth/src/validation.rs:119-149 | name by name: the digest under the three personal names, under the tenant name the value itself if it is 32 hexadecimal digits and its digest otherwise, and every other value unchanged |
| `HeaderValidation.ProtectShields` | crates/auth/src/validation.rs:119-149 | the protected map has the same names, and every value is shielded: 32 hexadecimal digits under the three personal names and the tenant name, unchanged elsewhere |
| `HeaderValidation.TenantKeptIff` | crates/auth/src/validation.rs:130-142 | a tenant id is stored as sent exactly when it already is 32 hexadecimal digits or its own digest |
| `HeaderValidation.ProtectTwice` | crates/auth/src/validation.rs:119-149 | a second pass changes nothing exactly when the digest fixes every digested personal value; the tenant id is always a fixed point |
| `HeaderValidation.ProtectTwiceIff` | crates/auth/src/validation.rs:119-149 | for a digest that moves its own outputs, a second pass changes nothing exactly when no personal header is present |
| `HeaderValidation.ProtectedRevalidates` | crates/auth/src/proxy.rs:400-502 | whatever headers are stored with a key validate again, unchanged, at every exchange |
| `HeaderValidation.ExchangeKeeps` | crates/auth/src/proxy.rs:624-646 | unless the caller overrides it, an exchange passes a stored header on with its stored value, and a personal one with the digest of its stored digest |
| `HeaderPipeline.Request.Sanitize` | crates/auth/src/proxy.rs:1321-1335 | exactly the guarded headers are removed |
| `HeaderPipeline.Request.NamesToStrip` | crates/auth/src/proxy.rs:1322-1331 | the collected names are exactly the present ones that are to go |
| `HeaderPipeline.Request.Apply` | crates/auth/src/proxy.rs:1260-1318 | the credential's acceptable headers are inserted in name order |
| `HeaderPipeline.Request.Forward` | crates/auth/src/proxy.rs:1260-1335 | both together compute the forwarded header map |
| `HeaderPipeline.ForwardedValue` | crates/auth/src/proxy.rs:1260-1335 | under each name the upstream sees the greatest accepted spelling of the credential, else the client's own values if the name is not guarded, else nothing |
| `HeaderPipeline.Request.Proxy` | crates/auth/src/proxy.rs:1338-1404 | the mode is read off the client's content type, TE header and protocol version, and the headers are then stripped and injected in that mode |
| `HeaderPipeline.GuardedSameMode` | crates/auth/src/proxy.rs:1260-1335 | within one mode two requests with the same credential get the same authentication and forbidden headers forwarded, whatever they sent |
| `HeaderPipeline.ModesAgreeIff` | crates/auth/src/proxy.rs:1172-1212 | plain HTTP and gRPC forward the same under a guarded name exactly when the value plain HTTP forwards passes as binary metadata or the name is none |
| `HeaderPipeline.GuardedIndependentIff` | crates/auth/src/proxy.rs:1338-1404 | over all requests of both modes the client has no say in a guarded header exactly under that condition on the credential |
| `HeaderPipeline.GuardedIndependent` | crates/auth/src/proxy.rs:1116-1168 | under every guarded name that does not end in `-bin` the client has no say, whatever it sends and whatever the credential |
| `HeaderPipeline.MalformedMetadata` | crates/auth/src/proxy.rs:1285-1297 | every credential with malformed binary metadata under a tenant name is one where the client decides whether the header is forwarded |
| `HeaderPipeline.TenantMetadataDropped` | crates/auth/src/proxy.rs:1285-1297 | one such credential passes header validation unchanged |
| `HeaderPipeline.NeverForwarded` | crates/auth/src/proxy.rs:1116-1168 | forbidden headers and `authorization` never reach the upstream, from client or credential |
| `HeaderPipeline.NamesWithheld` | crates/auth/src/proxy.rs:1116-1135 | over every request and credential, twelve names written out and `authorization` are absent from what is forwarded |
| `HeaderPipeline.TenantAndScopesFromCredential` | crates/auth/src/proxy.rs:1137-1144 | a name that starts with `x-tenant-`, `x-scope` and `x-scopes` are absent unless a name of the credential folds to it |
| `HeaderPipeline.OthersPassThrough` | crates/auth/src/proxy.rs:1321-1335 | every other name that no name of the credential folds to keeps the client's values, or its absence |
| `HeaderPipeline.CredentialDelivered` | crates/auth/src/proxy.rs:1260-1318 | a header the credential names in lower case only is forwarded exactly when it meets the conditions written out, and otherwise counts as not named |
| `HeaderPipeline.GrpcRequestIff` | crates/auth/src/proxy.rs:1338-1371 | a request is gRPC exactly for HTTP/2, a content type of the family `application/grpc` and the single token `trailers`, in any letter case |
| `Scopes.BuildTokenHeaders` | crates/auth/src/proxy.rs:1095-1111 | the token's headers carry the canonical scopes exactly when it has any |
| `Scopes.HasAnyScope` | crates/auth/src/request_auth.rs:68-82 | true exactly when some scope of the header equals an asked-for name, or starts with one that ends in a colon, in any letter case |
| `Scopes.WordIff` | crates/auth/src/request_auth.rs:51-61 | the scopes read from a header are exactly the lower-cased longest runs without a space |
| `Scopes.CanonicalWords` | crates/auth/src/proxy.rs:1098-1108 | parsing the canonical header yields exactly the words of the token's scopes |
| `Scopes.UpstreamSeesTokenScopes` | crates/auth/src/request_auth.rs:31-66 | end to end, whatever the client sent and whatever else the token carries, the upstream finds exactly the lower-cased words of the token's scopes, if and only if no scope holds a control character |
| `Scopes.CanonicalValid` | crates/auth/src/proxy.rs:1098-1108 | the canonical header is fit for HTTP exactly when every scope is |
| `Base64.DecodeEncode` | crates/auth/src/api_tokens.rs:8-12 | decoding undoes encoding for every byte string |
| `Base64.AlphabetTable` | crates/auth/src/api_tokens.rs:8-12 | the 64 symbols are those of the URL-safe alphabet, table 2 of RFC 4648 |
| `Base64.TestVectors` | crates/auth/src/api_tokens.rs:8-12 | the test vectors of section 10 of RFC 4648 up to one full group, without padding |
| `Credentials.GeneratedKeyUsable` | crates/auth/src/api_keys.rs:125-154 | a generated key is recognised as an API key, splits to its own id and validates against its stored digest exactly when the service prefix has no dot and no bar |
| `Credentials.KeyParts` | crates/auth/src/api_keys.rs:125-154 | the key id is the prefix and the first eight drawn bytes, the part after the dot decodes to the other twenty-four |
| `Credentials.KeysDiffer` | crates/auth/src/api_keys.rs:125-154 | two draws give the same full key exactly when they are equal, and the same key id exactly when their first eight bytes are |
| `Credentials.AuthTokenKinds` | crates/auth/src/auth_token.rs:38-54 | which texts are taken for API keys, for legacy tokens, and for neither |
| `Credentials.ValidatesOnly` | crates/auth/src/api_keys.rs:210-233 | only a text with the stored id and the stored digest validates |
| `Credentials.PrintedTokenParses` | crates/auth/src/api_tokens.rs:177-217 | a printed legacy token parses back to itself exactly when its text is non-empty, bar-free and within 512 bytes with its number |
| `Credentials.GeneratedTokenUsable` | crates/auth/src/api_tokens.rs:93-134 | a generated legacy token is recognised and validates exactly when its prefix is bar-free and leaves room for the 60 other characters and the number |
| `Credentials.TokenParts` | crates/auth/src/api_tokens.rs:93-127 | a token is the prefix followed by an encoding of the forty random bytes and their checksum |
| `ServiceIds.ToBeBytes` | crates/auth/src/types.rs:54-66 | the array-filling loop writes the storage key |
| `ServiceIds.FromBeBytes` | crates/auth/src/types.rs:68-79 | the loop inverts it: the id read has exactly these bytes |
| `ServiceIds.KeyBijection` | crates/auth/src/types.rs:54-79 | ids and 16-byte strings correspond one to one |
| `ServiceIds.KeyOrder` | crates/auth/src/types.rs:54-79 | byte order of the keys is the order of (main, sub) |
| `ServiceIds.ParsePrintId` | crates/auth/src/types.rs:112-120 | parsing undoes printing for every pair of 64-bit numbers |
| `ServiceIds.ParseAccepts` | crates/auth/src/types.rs:91-110 | exactly `main` and `main:sub` with numbers below 2^64 are accepted |
| `TlsClients.TlsClientManager.EvictOldEntries` | crates/auth/src/tls_client.rs:254-280 | every expired entry goes and, if the cache is still full, exactly the oldest of the rest, ten more than needed |
| `TlsClients.TlsClientManager.GetClient` | crates/auth/src/tls_client.rs:95-138 | with the configuration that fits the service's profile field by field, a call alone returns the unexpired cached client and changes nothing, or the newly built client, which is then cached |
| `TlsClients.ConfigFits` | crates/auth/src/tls_client.rs:140-171 | the configuration of a service is the one that has, field by field, what its profile names, and no other |
| `TlsClients.TlsClientManager.CleanupExpired` | crates/auth/src/tls_client.rs:283-294 | exactly the expired entries go, and their number is reported |
| `TlsClients.TlsClientManager.Stats` | crates/auth/src/tls_client.rs:297-319 | active and expired entries are counted and add up to the total |
| `TlsClients.EvictCountLeaves` | crates/auth/src/tls_client.rs:262-279 | a cache that is still full shrinks to ten below its bound, or to nothing if the bound is smaller than that |
| `TlsClients.InsertBounded` | crates/auth/src/tls_client.rs:126-135 | an insertion keeps the cache within its bound exactly when the bound is at least one |
| `TlsCallers.StepKeepsOk` | crates/auth/src/tls_client.rs:95-138 | every step of every caller keeps entries under their own hash, within the bound and not from the future |
| `TlsCallers.CacheBounded` | crates/auth/src/tls_client.rs:126-135 | the bound holds in every state of every interleaving |
| `TlsCallers.CacheRefinesFreshBuild` | crates/auth/src/tls_client.rs:95-171 | without a hash collision among the configurations loaded so far every call returns a client within its lifetime that fits, field by field, the profile of the service it loaded itself, as if it always built afresh |
| `TlsCallers.InjectiveHashServesOwn` | crates/auth/src/tls_client.rs:95-171 | if the hash keeps configurations apart, every call of every run returns a client that fits the profile it loaded |
| `TlsCallers.CollisionServesOther` | crates/auth/src/tls_client.rs:237-251 | for any two colliding configurations there is a run in which the second service gets the first one's client |
| `TlsListener.TlsListenerManager.StoreServiceConfig` | crates/auth/src/tls_listener.rs:158-170 | the profile is replaced and its host name, if any, claimed; everything else stays |
| `TlsListener.TlsListenerManager.SelectServiceConfig` | crates/auth/src/tls_listener.rs:363-398 | the configuration for a name, the single one as a fallback, or the matching error |
| `TlsListener.TlsListenerManager.InstallRouter` | crates/auth/src/tls_listener.rs:106-125 | only the first installation takes effect |
| `TlsListener.TlsListenerManager.EnsureListener` | crates/auth/src/tls_listener.rs:232-275 | a running listener or a missing router means no change; otherwise the address bound, by fallback if the port is taken, or an error with nothing bound |
| `TlsListener.TlsListenerManager.UpsertServiceProfile` | crates/auth/src/tls_listener.rs:134-146 | succeeds exactly when a listener runs afterwards; the profile is stored even when it does not |
| `TlsListener.StepKeepsSafe` | crates/auth/src/tls_listener.rs:158-170 | every step keeps all claimed names on stored profiles, the address of a running listener and the installed router |
| `TlsListener.ListenerIsStable` | crates/auth/src/tls_listener.rs:232-275 | along every run a bound address and an installed router never change |
| `TlsListener.BoundOnceAfterRouter` | crates/auth/src/tls_listener.rs:232-275 | in every run the listener is bound at most once and only after a router was installed |
| `TlsListener.LockIsReleased` | crates/auth/src/tls_listener.rs:232-275 | from every reachable state a bind under way can end, which frees the life-cycle lock and changes neither registry nor router |
| `TlsListener.ListenerCanStart` | crates/auth/src/tls_listener.rs:232-275 | from every reachable state with a router and no listener some continuation brings the listener up, at any given address |
| `TlsListener.ProfileCanBePublished` | crates/auth/src/tls_listener.rs:158-170 | from every reachable state some continuation makes a name resolve to exactly any given configuration that asks for it |
| `TlsListener.RegistryIsHistory` | crates/auth/src/tls_listener.rs:158-170 | in every reachable state both maps hold what was stored and claimed last |
| `TlsListener.ClaimedNameResolves` | crates/auth/src/tls_listener.rs:363-398 | a claimed name resolves to the current configuration of the service that claimed it last, even after that service moved to another name |
| `TlsListener.UnclaimedName` | crates/auth/src/tls_listener.rs:381-388 | an unclaimed name is served exactly when there is a single profile |
| `Durations.ReadDuration` | cli/src/command/upgrade.rs:1098-1143 | the loop with checked arithmetic returns the unbounded reading exactly when it fits 64 bits |
| `Durations.UnitTable` | cli/src/command/upgrade.rs:1116-1124 | the six units and their seconds, and no other |
| `Durations.ScanIsMeaning` | cli/src/command/upgrade.rs:1093-1143 | the left-to-right reading succeeds exactly on counted units with an optional bare tail, and yields their total |
| `Durations.ParseDurationToSeconds` | cli/src/command/upgrade.rs:1093-1143 | the answer is v exactly when the trimmed text is `never` and v is 0, or it denotes v and v fits 64 bits |
| `Durations.MeaningUnique` | cli/src/command/upgrade.rs:1093-1143 | no text denotes two durations |
| `LogScan.BinaryUriFromEvent` | cli/src/command/upgrade.rs:776-828 | the windowed scan answers like one scan of the whole chain; windows follow each other without gap or overlap, none above 10,000 blocks, at most head/10,000 + 1 of them and exactly that many when nothing is found; an error exactly when a request failed; the answer is the URI of the last decodable log up to the head, or none if there is none |
| `LogScan.NewestDecodable` | cli/src/command/upgrade.rs:815-819 | the reverse loop finds the last log that decodes |
| `LogScan.NewestUpTo` | cli/src/command/upgrade.rs:815-819 | the reverse scan of the logs up to the head yields the last one that decodes: every later one does not, and none exists exactly when the answer is none |
| `LogScan.TilesCover` | cli/src/command/upgrade.rs:799-825 | each block between the lowest window and the head lies in exactly one window |
| `TrustScore.ComputeTrustScore` | cli/src/command/upgrade.rs:951-1017 | saturating accumulation gives the saturated true totals, one penalty per row, and fails exactly when some auditor lookup fails |
| `TrustScore.ScoreIgnoresOrder` | cli/src/command/upgrade.rs:951-1017 | permuting the attestations keeps the score |
| `TrustScore.ScoreIgnoresUncounted` | cli/src/command/upgrade.rs:967-985 | deleting an attestation that is revoked, past its expiry, or not by an active auditor with weight keeps the score |
| `TrustScore.FormulaHolds` | cli/src/command/upgrade.rs:913-917 | the documented clamped formula is met by every list up to the exact weight limit |
| `TrustScore.FormulaHoldsIff` | cli/src/command/upgrade.rs:1000-1005 | the documented formula is met for every penalty exactly up to a total weight of 42,949,679 |
| `TrustScore.ClampMeans` | cli/src/command/upgrade.rs:1000-1005 | the final score is the difference itself between 0 and 100, and the nearer end outside |
| `TrustScore.SingleAuditor` | cli/src/command/upgrade.rs:935-1005 | one attestation in force scores a tenth of its weight less 0, 2, 10, 25, 50 or 100 by its severity, within 0 and 100 |
| `TrustScore.MaxWeightAuditor` | cli/src/command/upgrade.rs:935-947 | one auditor of weight 1000 yields 100 exactly without findings and 0 exactly with a critical one |
| `TrustScore.CriticalNeverRaisesIff` | cli/src/command/upgrade.rs:935-947 | adding a critical attestation in force never raises any score exactly when its weight is at most 1000 |
| `EnvFile.WriteEnvEntries` | cli/src/settings.rs:120-159 | the loops produce the rendered target file: first occurrences updated in place, missing keys appended in key order |
| `EnvFile.WrittenReads` | cli/src/settings.rs:130-142 | a reader that takes the first entry sees the new value of every updated key and the old value of every other |
| `EnvFile.LastUpdateWins` | cli/src/settings.rs:124-142 | of several updates of a key the last one is read back |
| `EnvFile.OtherKeysKept` | cli/src/settings.rs:124-142 | a key without an update reads as before |
| `Text.TrimCuts` | cli/src/settings.rs:161-175 | trimming cuts nothing but white space, at both ends |
| `EnvFile.EitherLineEnding` | cli/src/settings.rs:161-175 | a line feed ends a line with or without a carriage return before it |
| `EnvFile.WrittenKeepsLines` | cli/src/settings.rs:132-142 | all other lines, comments and later duplicates stay in place, and one line is added per missing key |
| `EnvFile.WrittenTwice` | cli/src/settings.rs:130-142 | applying the same updates to the result changes nothing |
| `EnvFile.ParseRenderIff` | cli/src/settings.rs:161-175 | parsing gives back rendered lines exactly when keys and values are trimmed and no line has a stray line feed, equals sign or final carriage return |
| `EnvFile.RewriteReadsBackIff` | cli/src/settings.rs:120-175 | the written file parses to exactly the intended lines if and only if every update is trimmed and no line without an equals sign keeps a carriage return; a second write then leaves the file alone |
| `Profiles.ComputeStatistics` | crates/blueprint-profiling/src/lib.rs:365-394 | average, peak and both percentiles of any list of runs, the empty one included; percentiles by nearest rank: at least that many samples reach no higher, fewer lie strictly below |
| `Profiles.Percentile` | crates/blueprint-profiling/src/lib.rs:397-405 | indexing the sorted list at the clamped rank gives the nearest-rank percentile of the unsorted samples |
| `Profiles.Rank` | crates/blueprint-profiling/src/lib.rs:402-404 | the rank of a percentage is the least k such that k samples make up at least that share |
| `Profiles.PercentileCounts` | crates/blueprint-profiling/src/lib.rs:397-405 | counted on the runs: less than the percentage took strictly less time than the value, at least the percentage took no longer |
| `Profiles.PeakOfBytes` | crates/blueprint-profiling/src/lib.rs:372-383 | the peak is the memory of some run, and no run took more |
| `Profiles.OrderIrrelevant` | crates/blueprint-profiling/src/lib.rs:365-394 | measuring the runs in another order gives the same profile |
| `Profiles.PercentilesOrdered` | crates/blueprint-profiling/src/lib.rs:381-382 | the 95th percentile is at most the 99th and both are samples |
| `Profiles.AverageTrueIff` | crates/blueprint-profiling/src/lib.rs:375-379 | the average is the true one exactly when the sum fits 64 bits |
| `Profiles.AverageBetween` | crates/blueprint-profiling/src/lib.rs:375-379 | a true average lies between any bounds of the samples |
| `Profiles.PeakTrueIff` | crates/blueprint-profiling/src/lib.rs:383-383 | the reported megabytes are the true ones exactly below 2^52 bytes |

## Left out

- Keccak, CRC, signature schemes, PASETO, Unicode lower-casing, and the HTTP library's own checks of names and values are parameters of the model; theorems that need a property of one of them require it.
- RocksDB is abstract: a row written in a transaction is checked at commit against writes made after the transaction recorded it, and merge operands may be combined at any time.
- JSON and protobuf encodings of stored models: a stored header map is a map.
- `auth_challenge` and challenge freshness: verification does not check that the challenge was issued.
- The 90-day minimum lifetime is modelled for clocks that leave room for it in 64 bits.
- A model object whose create failed and is saved again: the machine drops such a model, as the handlers do; `Records.ApiKey.Create` shows that the object keeps the number it drew.
- Provenance of legacy tokens and the tenant id of exchanged tokens.
- `ServiceModel::save_if_absent`, the TLS asset tables, envelope encryption, the certificate authority and the OAuth endpoint.
- Failed lookups and refused requests have no step of their own in the machines, since they change nothing.
- Building a server configuration from stored certificates, the accept loop and shutdown of the TLS listener.
- Concurrency of the classes: `Records`, `TlsClients` and `TlsListener` classes run alone; `KeyStore`, `TlsCallers` and the steps of `TlsListener` are the concurrent machines.
- The lower-casing of names in `HeaderPipeline` is that of ASCII, which covers every name the HTTP library accepts.
- Floating-point rounding of the percentile rank: the model rounds the exact quotient up, which agrees for 95 and 99 at every sample size the profiler accepts.
- A sum of durations beyond 64 bits wraps, as in a release build; a debug build stops instead.
- Command-line plumbing, printers, prompts, RPC connections, block filters and file system access.
- FormulaHolds: is one direction; the exact limit is in `FormulaHoldsIff`.
- RunKeepsIndex: is one direction; the exact condition on the history is in `SoundIff` and `CompleteIff`.
- The handlers' own code path for disabling a key: an edit is a fetch, a change of the switch, the dates or the description, and a save.

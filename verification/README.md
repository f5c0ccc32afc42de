# Verified model of the KES core

KES is a key server that sits between its clients and a slow or remote key store. This project models
the in-process parts that keep it correct under concurrency, over time and across the formats that
keys and ciphertexts have had, and proves what they are for. `dafny verify dfyconfig.toml` checks the
whole project with Dafny 4.11.

## How the model is built

**Concurrency.** Code that many goroutines run is a transition system whose steps are the atomic
actions of the code: a load, store or compare-and-swap of a pointer or flag, a section under a mutex,
taking or releasing a mutex, one call of the key store. Runs are sequences of states and steps, of any
length, with any number of goroutines and names; every theorem about runs holds in every interleaving.

- `BarrierProtocol` and `Barrier.dfy`: the per-key lock with reference-counted entries, as a protocol
  and as a class; the class's methods and the protocol's steps change the same counts.
- `CowProtocol`, `CowOps` and `Cow.dfy`: the copy-on-write map. The class is proved against the
  one-step operations of `CowOps`, and the protocol is proved to be a run of these operations.
- `KeyCache`: the composition of both with the key store, the `Used` flags, the collectors and the
  offline switch. `KeyCacheCoherence` and `KeyCacheStaleness` prove the exact condition under which the
  cache agrees with the store; `KeyCacheFlight` single flight, conservation and progress;
  `KeyCacheEviction` the second-chance eviction, its timing and the behaviour in an outage;
  `KeyCacheRemovals` and `KeyCacheFreshness` which keys a single `Get` may return;
  `KeyCacheCodec` what all this means for the keys that clients put in and get out; and
  `KeyCacheClass` each call on its own, as methods of a class over the `Cow` and `Barrier` classes.
- `MulticastProtocol` and `Multicast.dfy`: the lock-free set of writers and its `Write`.

**Time.** `Renewal` is the endless loop of `RenewToken` as a timed state machine: a round is one
iteration, and what Vault answers during it is part of the round. `RenewalClient` is the loop itself.

**Formats.** `Base64`, `Wire`, `KeyCodec` and `KeyVersions` take a key version to its protobuf message,
the wire and base64 text and back (section 4 of RFC 4648). `Ciphertexts` and `Encryption` model the
ciphertext layout and the two legacy envelopes, with methods that work in the byte buffers of the code;
`Efs` is the encrypted file store on top.

**The rest.** `Names`, `Listing`, `MemKeyStore.dfy` and `Continuations` model prefix listing, `Retry.dfy`
the retrying HTTP client, `Policies` the policy and identity tables.

## What stands for the world outside

- The key store is a map that may be unreachable at any call; a call that fails has no effect. It may or
  may not report an error for the deletion of a missing key. Nobody but this server deletes keys from it.
- AES-GCM, ChaCha20-Poly1305 and the key derivation are one abstract pair of seal and open
  (section 2 of RFC 5116) of which only open-after-seal and the 16-byte tag are used. An AEAD cannot
  refuse every other context, so the refusal that `Efs.MovedFileIsRefused` needs is a hypothesis about
  the one ciphertext and the one other context at hand. That a stream cipher's sealed bytes can be any
  bytes is a hypothesis of `Encryption.EnvelopeByChance` only.
- `encoding/json` is abstract: of `json.Valid` only which characters may start a JSON value is used
  (section 3 of RFC 8259), and of a JSON envelope only that its parts are shorter than its text. Which
  algorithm names the MessagePack envelope may hold is a parameter too.
- Vault, the clock, random numbers, the network and cancellation are values that the operations take.
- Reading a message whose key is missing dereferences nil in the code; it is the error `NilDereference`
  here. Panics are explicit results or states in the same way.

## Where the code differs from what one might expect

- `keyCache.Delete` does not take the barrier. A delete that reaches the store while another goroutine
  has read the key and still waits for the cache's mutex can leave a stale entry behind
  (`KeyCacheStaleness.UncleanDeleteGoesStale`); a goroutine that already holds that mutex is harmless.
- While a Delete is between its store and cache steps, the name can be created anew, and even the
  creator's next Get may then return the deleted key (`KeyCacheFreshness.GetReturnsDeleted`).
- `List` with a prefix may return up to two names more than asked for (`Listing.OverlongExactly`).
- A continuation is used as the next prefix, so following continuations need not list every name
  (`Continuations.MissesNames`).
- Two first calls of `Multicast.Add` may race to a nil dereference (`MulticastProtocol.PanicsExactly`).
- A fresh ciphertext may look like a legacy envelope and then does not decrypt
  (`Encryption.EnvelopeByChance`).
- `Encrypt` builds the ciphertext in the caller's plaintext buffer when that has 44 spare bytes.
- The documented lower bound on the waits of `Retry` fails when Delay plus the random part overflows
  int64: the wait is then negative (`HttpRetry.ShortWaitExactly`).
- A Vault token TTL that drops between renewals can keep a token in use too long
  (`Renewal.LateExactly` says exactly when).

## Model

| member | source | states |
|---|---|---|
| BarrierProtocol.MutualExclusion | internal/cache/barrier.go:25-74 | In every state of every run: at most one goroutine is in the critical section of a key, all its users hold the one lock object that the map has for it, the object's counter is the number of users, a key is in the map exactly while it is used, and nobody has panicked |
| BarrierProtocol.StepKeepsInv | internal/cache/barrier.go:38-74 | Every atomic step of Lock and Unlock keeps the invariant that ties map, counters, lock objects and goroutines together |
| BarrierProtocol.WaiterHasLiveOwner | internal/cache/barrier.go:25-34 | Whoever blocks in Lock waits for exactly one other goroutine that holds the same object and can step now, when goroutines take one key at a time |
| BarrierProtocol.MapEmptyWhenUnused | internal/cache/barrier.go:55-74 | When nobody uses the barrier its map is empty, in every run |
| BarrierProtocol.RemoveUndoesAdd | internal/cache/barrier.go:38-74 | Unlock undoes Lock on the counters unless the counter would wrap around |
| BarrierProtocol.AddMatchesClass | internal/cache/barrier.go:38-53 | The protocol's add changes the counts as the method does |
| BarrierProtocol.RemoveMatchesClass | internal/cache/barrier.go:55-74 | The protocol's remove changes the counts as the method does and never meets the panic |
| BarrierProtocol.StepMatchesClass | internal/cache/barrier.go:25-74 | Every step of the protocol changes the counts as the method it stands for, and the mutex steps leave them alone |
| BarrierClass.Barrier.Add | internal/cache/barrier.go:38-53 | Returns the key's one lock object, new or existing, and counts one user more for that key only |
| BarrierClass.Barrier.Remove | internal/cache/barrier.go:55-74 | Returns the key's object and counts one user less, dropping the entry at zero; a key that nobody locked is the panic and changes nothing |
| CowOps.OutcomeWithinCapacity | internal/cache/cow.go:62-125 | No operation takes the map over a positive capacity |
| CowOps.FullCow | internal/cache/cow.go:62-125 | At capacity, replacing the value of a present key works, every other key is refused, and after a deletion a new key is accepted |
| CowOps.DeleteUndoesAdd | internal/cache/cow.go:99-154 | Deleting what a successful Add stored restores the map |
| CowClass.CopyInto | internal/cache/cow.go:82-85 | Copying entry by entry, in any order, yields an equal map object |
| CowClass.Cow.Get | internal/cache/cow.go:44-51 | A lookup in the published map; a nil pointer is empty |
| CowClass.Cow.Set | internal/cache/cow.go:62-90 | The new contents and result are those of the one-step Set, in a new map object if stored and with the old pointer if not |
| CowClass.Cow.Add | internal/cache/cow.go:99-125 | The same for Add, which never replaces |
| CowClass.Cow.Delete | internal/cache/cow.go:129-154 | The same for Delete, which keeps the pointer when the key is absent |
| CowClass.Cow.DeleteFunc | internal/cache/cow.go:168-186 | Keeps exactly the entries for which the function is false, in a new map object |
| CowClass.Cow.Clone | internal/cache/cow.go:189-213 | An equal Cow with a map object of its own, so that neither sees later changes of the other |
| CowClass.Cow.Keys | internal/cache/cow.go:217-228 | Every key exactly once |
| CowProtocol.EffectIsOutcome | internal/cache/cow.go:62-186 | Each operation takes effect in one step, its pointer store or early exit, as the one-step operation with the same result |
| CowProtocol.Linearisable | internal/cache/cow.go:62-186 | Every run is a run of a plain map: same contents, same results, never over capacity |
| CowProtocol.PublishedForever | internal/cache/cow.go:62-186 | A map object that was ever published never changes again, in any run |
| CowProtocol.ReaderSeesOnePublishedMap | internal/cache/cow.go:44-51 | A lock-free reader finds, at any time after its load, exactly what the Cow held at that load |
| KeyCache.StepKeepsInv | keystore.go:173-337 | Every atomic step of Get, Create, Delete and the collectors keeps the cache's invariant |
| KeyCache.OneInside | keystore.go:308-309 | Two goroutines are never inside the barrier for one name |
| KeyCacheCoherence.CleanStepKeepsCoherence | keystore.go:279-337 | A step that does not delete a name from the store while another goroutine waits to cache it keeps the cache coherent |
| KeyCacheCoherence.CleanRunIsCoherent | keystore.go:262-337 | In every run of such steps, each cached entry decodes what the store holds or a Delete of its name is between its store and cache steps |
| KeyCacheStaleness.UncleanDeleteGoesStale | keystore.go:279-337 | Any delete that breaks the condition can be continued to a state in which the deleted key is cached, gone from the store, and nobody is about to drop it from the cache |
| KeyCacheStaleness.CoherentExactlyWhenClean | keystore.go:279-337 | The condition is exact: a step keeps all clean continuations coherent if and only if it meets it |
| KeyCacheStaleness.StaleRunExists | keystore.go:279-337 | A concrete run from a fresh cache to a stale entry, for every name and every value that parses |
| KeyCacheStaleness.ReturnedWasStored | keystore.go:298-337 | Without any condition, every key that Get returns was held by the store under that name at this or an earlier step |
| KeyCacheFlight.SingleFlight | keystore.go:308-336 | At most one goroutine reads a given name from the store, or is about to cache what it read |
| KeyCacheFlight.SetAddsAndOnlySet | keystore.go:186-207 | A cache Set never replaces an entry, and nothing else adds one |
| KeyCacheFlight.Conservation | keystore.go:180-336 | For each name, cache Sets minus removals by Delete or any collector is 1 if the name is cached and 0 if not, in every run |
| KeyCacheFlight.NobodyIsStuck | keystore.go:298-337 | From any goroutine inside a call, at most two waits lead to one that can step |
| KeyCacheEviction.SweepKeepsUsed | keystore.go:186-202 | An entry that is cached and used when a sweep begins is cached, under its name, when the sweep ends |
| KeyCacheEviction.SweepKeepsMarked | keystore.go:186-202 | A sweep never removes an entry that was marked or inserted since the previous sweep visited it, be it before this sweep began or before it reached the entry: it is cached when the sweep ends |
| KeyCacheEviction.VisitKeepsMarked | keystore.go:188-201 | The visit of such an entry keeps it and clears its mark |
| KeyCacheEviction.TwoSweepsEvict | keystore.go:186-202 | An entry that nobody marks during two sweeps is gone after the second and never comes back |
| KeyCacheEviction.IdleEntryExpires | keystore.go:186-202 | With ideal ticks every ExpiryUnused/2, an entry idle since time t is gone after t + 2*(ExpiryUnused/2), which is at most t + ExpiryUnused |
| KeyCacheEviction.CollectorRests | keystore.go:180-207 | A collector whose test of the offline flag fails throughout touches nothing: General and Unused in an outage, Offline while online |
| KeyCacheEviction.OutageKeepsEntry | keystore.go:180-207 | In an outage with ExpiryOffline > 0 a cached name keeps its entry and its mark until an offline tick or its Delete, and a Get of it hits |
| KeyCacheEviction.EntryStays | keystore.go:180-207 | At any time, an entry stays cached, marked and a hit until a collector collects or a Delete of the name starts |
| KeyCacheEviction.StaleUntilCollected | keystore.go:180-288 | A stale entry, too, stays cached that long unless the name is created anew |
| KeyCacheRemovals.CleanRunAccounts | keystore.go:279-337 | In every run that keeps the cache coherent, each cached key is what the store holds, or a Delete that removed this very key from the store has not dropped it from the cache yet |
| KeyCacheRemovals.HistoryMeans | keystore.go:279-288 | What that says of the run: a step of such a Delete removed the key, and its goroutine has been between its store and cache steps ever since |
| KeyCacheFreshness.GetIsFresh | keystore.go:279-337 | In such runs, a Get that returns a key returns one that, at some moment of the call, the store held or an unfinished Delete had removed from it |
| KeyCacheFreshness.GetReturnsCreated | keystore.go:262-337 | In such runs, a Get after a successful Create returns the created key if the name is not deleted in between and no Delete of it is pending while the Get runs |
| KeyCacheFreshness.GetReturnsDeleted | keystore.go:262-337 | Otherwise it need not: from any state of a run with the name cached and stored, two idle goroutines and nobody waiting to cache it, the first step of a Delete, a Create and a Get end with the Get returning the deleted key |
| KeyCacheFreshness.NoKeyAfterDelete | keystore.go:279-337 | In such runs, a Get that starts when the store does not hold the name and no Delete of it is under way returns no key before the next Create |
| KeyCacheCodec.ReturnedWasCreated | keystore.go:262-337 | Over the real codec and in every interleaving, a key that Get returns under a name is the one initially stored or one that a successful Create of that name was given, in UTC |
| KeyCacheCodec.OneKeyPerName | keystore.go:262-337 | While a name is not deleted, all Gets of it that return a key return the same one, whatever the collectors evict |
| KeyCacheClass.KeyCache.Get | keystore.go:298-337 | The cache is transparent: while the store answers, the result is what reading and parsing the store yields; on success the key is cached and marked used, nothing else changes |
| KeyCacheClass.KeyCache.Create | keystore.go:262-274 | Creates once, never touches the cache, and what was created reads back as the same key in UTC; every error leaves the store alone |
| KeyCacheClass.KeyCache.Delete | keystore.go:279-288 | Removes the key from the store and then the cache; a failing store call leaves both alone, and a store that reports no error for a missing key has the cache cleared of it |
| KeyCacheClass.Sweep | keystore.go:188-201 | Keeps exactly the entries that were marked and leaves none marked, in any visiting order |
| KeyCacheClass.KeyCache.UnusedTick | keystore.go:186-202 | While online or without ExpiryOffline, keeps exactly the used keys and unmarks them; otherwise nothing changes |
| KeyCacheClass.KeyCache.DropAllTick | keystore.go:181-207 | Empties the cache exactly when the collector's test of the offline flag passes |
| Renewal.Durations | internal/keystore/vault/client.go:203-204 | For T >= 30s under truncating division: renewIn + 2*delay <= T and renewIn + delay + 3s <= T, without overflow |
| Renewal.LongTtlHasSecret | internal/keystore/vault/client.go:159-247 | At the loop head of every run, a TTL of 30s or more comes with a secret of that TTL, so the nil secret is never dereferenced |
| Renewal.RoundKeepsHead | internal/keystore/vault/client.go:170-247 | One iteration keeps the loop-head invariant: at ttl >= 30s the token in use is at most (ttl - renewIn)/2 old, lost time aside |
| Renewal.NeverLate | internal/keystore/vault/client.go:170-247 | No token is ever in use past its expiry in a run whose failures and sealed waits fit the margin |
| Renewal.ConstantTtlIsSafe | internal/keystore/vault/client.go:170-247 | For every constant TTL of at least 3s with Vault unsealed and successful calls, the token in use is never past its expiry, in any mix of branches |
| Renewal.LoginsBeforeExpiry | internal/keystore/vault/client.go:188-232 | After a failed renewal the k-th further login comes k*3s later, and all up to k = ((T - renewIn)/2)/3s come before the old token expires |
| Renewal.RecoversInTime | internal/keystore/vault/client.go:188-232 | If one of these logins succeeds, the invariant is restored and nothing was late |
| Renewal.FailuresLateExactly | internal/keystore/vault/client.go:188-232 | For every TTL and every age of the token: after a failed renewal, or login for a TTL below 30s, and k failed logins it is in use past its expiry if and only if the age, the wait of the first failure and k*3s exceed the TTL |
| Renewal.LateExactly | internal/keystore/vault/client.go:159-247 | In every run, whatever Vault answers, however TTLs change and whenever Vault is sealed: a token is in use past its expiry if and only if, in some round, the token's age and the waits of the round exceed its TTL or the delay of the switch exceeds the new one's; age and waits are computed from the secrets granted and the failures alone |
| Renewal.DroppingTtlIsLateExactly | internal/keystore/vault/client.go:203-243 | Two renewals with new tokens of 30s or more are late if and only if age, wait and switch delay exceed the TTL of the token in use, or the delay of the first, its wait for renewal and its own delay exceed the TTL of the first |
| Renewal.DroppingTtlIsLate | internal/keystore/vault/client.go:203-243 | An instance: after a token of 3000s one of 31s is used too long though every call succeeds |
| RenewalClient.Client.RenewWithRetries | internal/keystore/vault/client.go:213-223 | One to three attempts, each but the last a failure that is no rejection; fewer than three end with a success or a 4xx answer, and a secret is that of the last attempt |
| RenewalClient.Client.Iterate | internal/keystore/vault/client.go:170-247 | One iteration of the loop takes token, expiry, clock, secret and TTL to the state machine's next state |
| RenewalClient.Client.RenewToken | internal/keystore/vault/client.go:159-247 | The loop does what the state machine does for any number of rounds, a token without TTL is left alone, and with a constant TTL and successful logins the token in use is never past its expiry |
| Base64.DecodeUndoesEncode | internal/crypto/key.go:104-148 | The decoder undoes the encoder on all bytes |
| Base64.EncodedLength | internal/crypto/key.go:108-112 | The text has 4*ceil(n/3) characters |
| Wire.DecodeUndoesEncodeVarint | internal/protobuf/proto.go:31-51 | Varints of all 64-bit numbers survive, whatever follows them |
| Wire.FieldsRoundTrip | internal/protobuf/proto.go:31-51 | Every sequence of well-formed fields survives the wire |
| KeyCodec.UnmarshalUndoesMarshal | internal/protobuf/crypto.proto:18-34 | Every complete key version message survives, and its first byte is 0x0A |
| KeyVersions.EncodesExactlyEncodable | internal/crypto/key.go:104-113 | Encoding succeeds exactly for initialised keys of a known cipher and hash whose creator is valid UTF-8 |
| KeyVersions.MessageRoundTrip | internal/crypto/key.go:179-211 | UnmarshalPB undoes MarshalPB, with the time in UTC |
| KeyVersions.EncodedIsNotJson | internal/crypto/key.go:116-148 | The text starts with C, so the JSON branch is never taken on it, whatever JSON parser is used |
| KeyVersions.ParseUndoesEncode | internal/crypto/key.go:104-161 | Parsing an encoded key yields the key with its time in UTC |
| KeyVersions.RoundTripExactlyInUTC | internal/crypto/key.go:104-161 | The very same key comes back exactly for keys whose time is in UTC |
| KeyVersions.EncodingIsInjective | internal/crypto/key.go:104-113 | Two keys with one stored form are the same key, but for the location of their times |
| KeyVersions.ParsedKeys | internal/crypto/key.go:116-211 | Keys parsed from the current form can be encoded again; keys parsed from the legacy JSON form never can |
| KeyVersions.ReencodeIsLossless | internal/crypto/key.go:104-161 | Writing a parsed current key anew and parsing it yields the same key |
| Ciphertexts.ReadUndoesWrap | internal/crypto/ciphertext.go:62-113 | The MessagePack reader undoes the envelope, for every width of the length fields |
| Ciphertexts.WrappedNormalises | internal/crypto/ciphertext.go:21-48 | A MessagePack envelope turns into bytes, IV, nonce |
| Ciphertexts.JsonNormalises | internal/crypto/ciphertext.go:37-46 | So does a JSON envelope with either algorithm name |
| Ciphertexts.NormalisedShrinks | internal/crypto/ciphertext.go:21-48 | The result is shorter than an envelope, and anything else is returned as it is |
| Ciphertexts.BinaryEndsInBytes | internal/crypto/ciphertext.go:94-111 | The sealed bytes of an envelope are the end of its text, the slice that is cloned before the buffer is rewritten |
| Ciphertexts.Rewrite | internal/crypto/ciphertext.go:33-46 | Truncating the buffer and appending three parts that lie elsewhere in memory yields them one after the other, in the same buffer when they fit |
| Ciphertexts.RewriteBinary | internal/crypto/ciphertext.go:28-36 | Cloning the slice of the buffer that holds the sealed bytes and rewriting the buffer yields bytes, IV, nonce in place |
| Ciphertexts.ParseCiphertext | internal/crypto/ciphertext.go:21-48 | The rewritten buffer holds the normalised form of what it held before, in place, and is untouched if that was no envelope |
| Encryption.OpenUndoesSeal | internal/crypto/key.go:271-378 | Opening undoes sealing for both ciphers, with exactly 44 bytes of overhead |
| Encryption.DecryptUndoesEncryptExactly | internal/crypto/key.go:271-378 | Decrypt yields the encrypted plaintext if and only if the ciphertext is no legacy envelope by chance |
| Encryption.EnvelopeByChance | internal/crypto/key.go:327-336 | Such ciphertexts exist for every key, randomness and context of a stream cipher: some plaintext is encrypted to a text that starts with 0x95, reads as a MessagePack envelope and does not decrypt to the plaintext |
| Encryption.AnyBodyIsPossible | internal/crypto/key.go:271-320 | The hypotheses of that result can be met together |
| Encryption.EnvelopesDecryptAlike | internal/crypto/key.go:327-378 | A raw ciphertext decrypts the same in the MessagePack and in the JSON envelope |
| Encryption.WrappedRoundTrip | internal/crypto/key.go:271-378 | What was encrypted decrypts out of the MessagePack envelope |
| Encryption.Extend | internal/crypto/key.go:501-510 | Room for n more bytes, in the same buffer if it has it and in a copy otherwise |
| Encryption.Encrypt | internal/crypto/key.go:271-320 | The buffer returned holds the sealed form; the plaintext buffer is overwritten only when it has the spare room, and kept on errors |
| Encryption.Decrypt | internal/crypto/key.go:327-378 | The plaintext is opened in the ciphertext's own buffer, with the specified result or error |
| Efs.ContextIsInjective | internal/keystore/efs/efs.go:112 | Different names give different contexts |
| Efs.ReadsBackExactly | internal/keystore/efs/efs.go:111-137 | A value is read back if and only if its sealed form fits into 1 MiB and is no legacy envelope |
| Efs.MovedFileIsRefused | internal/keystore/efs/efs.go:124-137 | A file moved to another name never yields its value, whatever its size and form, and fails to decrypt when it fits into 1 MiB and is no legacy envelope |
| Efs.Store.constructor | internal/keystore/efs/efs.go:35-51 | A new store is an empty map |
| Efs.Store.Create | internal/keystore/efs/efs.go:111-119 | Refines creating once in a map from names to values; each error leaves the files as they were |
| Efs.Store.Get | internal/keystore/efs/efs.go:124-137 | Returns the map's value exactly for the files that can be read back; a missing name is not found |
| Efs.Store.Delete | internal/keystore/efs/efs.go:142-144 | Refines deletion from the map |
| Names.PrefixContiguous | keystore.go:140-156 | In lexicographic order, between two names with a prefix there are only names with that prefix |
| Names.NoneAfterGap | keystore.go:140-156 | In a sorted list, once the names with a prefix end, none follows |
| Names.SortedIsUnique | internal/keystore/keystore.go:21 | Two sorted lists of the same names are equal, so any sorting algorithm gives the same pages |
| Names.MatchingWindow | internal/keystore/keystore.go:22-29 | The window of all names with the prefix is the list of matching names |
| Listing.SortInPlace | internal/keystore/keystore.go:21 | The array is sorted in place |
| Listing.List | internal/keystore/keystore.go:18-52 | Every page is an initial segment of the sorted matching names, and the continuation is the first one left out, or empty when none is; the argument ends up sorted |
| Listing.PageBounds | internal/keystore/keystore.go:31-51 | At most n + 2 names for n > 0, at most 1025 for n <= 0 or with a prefix, and for n > 0 no fewer than the least of n, the matches and 1024 |
| Listing.OverlongExactly | internal/keystore/keystore.go:31-41 | Exactly when a page holds more names than asked for |
| Listing.OverlongPage | internal/keystore/keystore.go:31-41 | An instance: of ka, kb and kc, one is asked for under the prefix k and all three are returned |
| MemKeyStoreClass.MemKeyStore.List | keystore.go:129-158 | For n != 0 exactly the first min(n, matches) sorted matching names, all for n < 0, with the next matching name or empty as continuation |
| MemKeyStoreClass.MemKeyStore.Create | keystore.go:93-98 | Creates once |
| MemKeyStoreClass.MemKeyStore.Delete | keystore.go:102-107 | Removes the entry or reports that there is none |
| MemKeyStoreClass.AgreesWithList | internal/keystore/keystore.go:18-52 | Both listings page alike without prefix for n > 0, and for n < 0 up to 1024 matches |
| Continuations.NextMatches | keystore.go:150-155 | What a continuation matches lies among the names its page left out, so following continuations ends |
| Continuations.FollowedIsIncreasing | keystore.go:129-158 | Following continuations yields a strictly increasing list without duplicates, for both listings |
| Continuations.FollowedMatches | keystore.go:129-158 | It yields only names that match the first prefix |
| Continuations.CompleteExactly | internal/keystore/keystore.go:18-52 | It lists every matching name if and only if, in the sorted list of matching names, each name at a position where a later page begins is a prefix of all names after it; the positions are fixed by n and the listing alone |
| Continuations.FollowedStep | keystore.go:150-158 | The chain goes on exactly while names are left out, as no continuation is the empty name |
| Continuations.MissesNames | keystore.go:129-158 | Of a, b and c, one at a time, it lists a and b |
| MulticastProtocol.EffectIsSetUpdate | internal/api/multicast.go:36-82 | Every Add and Remove takes effect on the set in exactly the step with which it returns |
| MulticastProtocol.Linearisable | internal/api/multicast.go:36-82 | Every run is a run of a set, and the slice never holds a writer twice |
| MulticastProtocol.FailureMeansProgress | internal/api/multicast.go:53-80 | When a compare-and-swap fails, another goroutine's has succeeded since the load |
| MulticastProtocol.NoPanicOnceSet | internal/api/multicast.go:41-56 | Once the group is set and no Add has seen it nil, no goroutine panics in any run |
| MulticastProtocol.PanicsExactly | internal/api/multicast.go:42-46 | An Add panics exactly when it loaded nil and another goroutine's compare-and-swap succeeded before its own |
| MulticastProtocol.FirstAddsRace | internal/api/multicast.go:42-46 | A run in which two first Adds race and one panics |
| MulticastWrite.Write | internal/api/multicast.go:87-111 | Delivers once to each writer of the snapshot whatever the others answer, and reports the first error with that writer's count, or the full length |
| HttpRetry.WaitBoundsExactly | internal/http/retry.go:197-205 | Every wait lies in [Delay, Delay+Jitter) if and only if the longest one does not overflow |
| HttpRetry.ShortWaitExactly | internal/http/retry.go:197-205 | No wait reaches Delay+Jitter; one is shorter than Delay if and only if it overflows, and then it is negative |
| HttpRetry.WaitOverflows | internal/http/retry.go:197-205 | An instance: the largest Delay with 2ms of Jitter |
| HttpRetry.Retry.TimersInBounds | internal/http/retry.go:155-205 | Then so do all waits of a call, with the defaults for zero fields |
| HttpRetry.Retry.LastAttemptIsFirstStop | internal/http/retry.go:189-228 | A call ends with the first attempt that is final, cancelled or cannot be rewound, or with the one after the N-th retry |
| HttpRetry.Retry.Repeat | internal/http/retry.go:190-228 | The loop stops after that attempt, has sent the whole body each time and drained each earlier response |
| HttpRetry.Retry.Do | internal/http/retry.go:154-244 | At most N+1 sendings, each but the last after an answer that asks for a retry; every resend has the whole body; one wait for each retry; every response not returned is drained exactly once; the result for every way to end |
| Policies.CheckName | auth.go:113-133 | Accepts exactly the valid names |
| Policies.IndexExistsExactly | state.go:248-275 | An inverse of the identity lists exists exactly when no identity is in two policies |
| Policies.OrderDoesNotMatter | state.go:251 | Two successful results for one configuration agree, whatever order the policies were visited in |
| Policies.FaultMeansUnacceptable | state.go:252-267 | Each error names a fault that makes the configuration unacceptable |
| Policies.Assign | state.go:261-272 | Gives the policy to each of its identities, or names the identity that is invalid or taken |
| Policies.InitPolicies | state.go:248-275 | Succeeds exactly when all names and identities are valid and no identity occurs twice; every policy is a new object, and the index inverts the identity lists and shares these objects |

## Left out

- The remote key store backends (AWS, GCP, Azure, Fortanix, Gemalto, Entrust, Vault) beyond token renewal: request plumbing over servers that are not part of this model.
- HTTP routing, handlers, TLS, certificates, `TLSProxy` and the server's life cycle: checks around libraries.
- `kes.Policy.Verify` and the client's iterator are not part of this model: they are in another repository.
- Command line, configuration files, metrics and logging: only easy members.
- Ciphers, key derivation, HMAC and randomness: parameters, as described above.
- Protobuf groups and unknown wire types are not read by `Wire`; a message that holds them is malformed in the model.
- `KeyVersion.HasHMACKey`, `HMACKey.Sum` and `GenerateSecretKey`: either one comparison or library calls.
- `CheckStatus` of the Vault client: it only decides when the renewal loop finds Vault sealed, and the model lets a round be sealed at any time.
- Calls to Vault take no time in `Renewal`: with slow calls the margin shrinks by their duration.
- `KeyCache` starts no goroutine per collector: any goroutine may run a tick at any time, which allows more than the code does; ideal ticks are a hypothesis of `KeyCacheEviction.IdleEntryExpires`.
- The copying inside a cache update is one step of `KeyCache`: it is private to the goroutine that holds the mutex, as `CowProtocol` shows step by step.
- The offline flag is set by a status query of one step: the time between the query and the store of the flag is not modelled.
- Garbage collection of lock objects, map objects and slices: identities are never used again while anyone may hold them.
- `Multicast.Add` and `Multicast.Remove` of a nil writer: they return at once.
- `Num` of `Multicast`: the length of the slice.
- I/O errors of `fs.Store` other than a failing write are not modelled; a failing write leaves no file.
- `fs.Store.List` and `efs.Store.List`: they pass the file names to `List`, which is modelled.
- Renewal.NeverLate: assumes that each round's failures and sealed waits fit the margin; Renewal.LateExactly says of every run exactly when a token is late.
- BarrierProtocol.WaiterHasLiveOwner: goroutines take one key at a time and unlock what they locked, as `keyCache.Get` does; one that holds a key while it waits for another, and a key unlocked by another goroutine, are not modelled.
- Encryption.OpenInPlace: promises nothing about the buffer after the AEAD has refused a ciphertext, as the cipher libraries may clear it.
- Efs.MovedFileIsRefused: assumes that the AEAD refuses the one other context, as no AEAD can refuse all of them.
- KeyCacheClass.KeyCache.Get: is the sequential behaviour; what concurrent calls do is stated by the modules on `KeyCache`.
- HttpRetry.Retry.Do: takes the classification of an error as temporary from three flags of the error, and stops at the first answer that is final.
- Policies.InitPolicies: the error reported depends on the visiting order when several things are wrong; only that it names a real fault is stated.

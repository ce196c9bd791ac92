# fdb-gateway, modelled in Dafny

fdb-gateway is a small server that speaks the Redis protocol (RESP) and turns each
command into an operation on a FoundationDB transaction. A client first `chroot`s
into a tenant directory, proving its user name and password against records kept in
an authorization subspace. It then opens a transaction with `begin`, works on keys
inside its directory with `get`, `set`, `clear`, `get_range` and `clear_range`, and
ends with `commit` or `cancel`. A multiplexer lower-cases each command's verb and
dispatches it to the handler registered for it.

This project models that core:

| file | models |
|---|---|
| `wrappers.dfy` | `Option` and `Result` |
| `bytes.dfy` | bytes, byte strings as strings, ASCII `strings.ToLower` |
| `resp.dfy` | the reply events a handler writes (`WriteError`, `WriteString`, `WriteInt`, `WriteArray`, `WriteBulk`, `WriteNull`) |
| `tuplekey.dfy` | packing a one-element tuple holding a byte string under a subspace prefix; unsigned lexicographic key order; key ranges; the key slicing done by `get_range` |
| `printable.dfy` | `printable` and its inverse |
| `respmux.dfy` | `RESPMux`: `NewRESPMux`, `Handle`, `HandleFunc`, `ServeRESP` |
| `tenancy.dfy` | `TenantAuthorizer.Authorize`, plus a corrected variant |
| `session.dfy` | `ConnCtx`, `Server`, `NewServer`, `Accept` and its 64-bit counter |
| `handlers.dfy` | every handler of `handler.go`, including `arity`, `chrooted` and `wrap` |
| `gateway.dfy` | the table `Serve` registers, one dispatched step, whole sessions, and the invariant every reachable connection keeps |

How the model represents the program:

- **Handlers are pure functions.** A handler takes a connection and returns an `Outcome`. The connection holds its context, every reply written so far, and whether it is closed. The `Outcome` is either the updated connection or a panic.
- **The database is not simulated.** Every answer the store gives during one command is a parameter, `Env`:
  - whether a transaction could be created, and the data it sees;
  - the read version;
  - the commit error and the committed version;
  - a read failure in `get`;
  - the items the range iterator yields;
  - the credential records and any error reading them;
  - the outcome of opening the tenant directory.
- **A transaction is its view.** The view is the key/value map it reads, including its own writes. `set`, `clear` and `clear_range` are stated as changes to that map.
- **Sessions run either the code as written or the corrected code.** Where the source is wrong (see Findings), the model keeps the code as written beside a corrected version. `Exec`, `Step` and `Run` take a `Code` parameter that picks one. Every session invariant is proved for both.
- **A failed commit keeps the transaction.** Both failure paths of `commit` return before `ctx.Transaction = nil` (`handler.go:122-134`). The model follows the code, so after a failed commit the connection still holds its transaction. Nothing clears the handle after a failed commit; the client must `cancel`.

## Model

| member | source | states |
|---|---|---|
| Bytes.LowerChar | pkg/respmux/respmux.go:63 | the lower-cased character is never an upper-case ASCII letter; an upper-case letter moves 32 code points up to its lower-case letter, and anything else is left as it is |
| Bytes.ToLower | pkg/respmux/respmux.go:63 | lower-casing keeps the length and maps each character on its own |
| Bytes.ToLowerFixesExactlyLower | pkg/respmux/respmux.go:63 | the result of lower-casing is lower-case, and lower-casing changes a string exactly when it holds an upper-case letter |
| TupleKey.Pack | pkg/server/handler.go:157 | a packed key is the subspace prefix, then the byte-string type code 0x01, then the escaped key, then a NUL terminator |
| TupleKey.UnescapeEscape | pkg/server/handler.go:157 | unescaping undoes the tuple layer's escaping of NUL bytes (0x00 becomes 0x00 0xFF) for every byte string |
| TupleKey.EscapeLength | pkg/server/handler.go:157 | escaping never shortens a key, and strictly lengthens every key that holds a NUL byte |
| TupleKey.EscapeFixesNulFree | pkg/server/handler.go:157 | a key with no NUL byte is left as it is by escaping |
| TupleKey.EscapeIsIdentityIff | pkg/server/handler.go:157 | escaping leaves a key unchanged if and only if the key holds no NUL byte |
| TupleKey.BetweenSharesPrefix | pkg/server/handler.go:186-188 | a key lying between two keys that share a prefix shares that prefix too |
| TupleKey.RangeKeyInBounds | pkg/server/handler.go:186-192 | every key inside a range built from two packed keys starts with the subspace prefix and the byte-string type code, and is at least two bytes longer than the prefix |
| TupleKey.RangesMeetOnlyOnNestedPrefixes | pkg/server/handler.go:186-188 | two packed ranges under different subspace prefixes can share a key only if one prefix extends the other, so tenants whose prefixes do not nest never see each other's keys |
| TupleKey.LexLtCommonPrefix | pkg/server/handler.go:186-188 | prefixing both keys with the same bytes keeps their unsigned lexicographic order |
| TupleKey.FramedOrder | pkg/server/handler.go:186-188 | escaping a key and adding its NUL terminator keeps the order of keys in both directions |
| TupleKey.PackOrder | pkg/server/handler.go:157 | one key is below another if and only if its packed form is below the other's, so a packed range selects exactly the application keys in the requested range |
| TupleKey.StripPackIsEscape | pkg/server/handler.go:198 | the slice `get_range` takes of a packed key is the escaped key, not the key |
| TupleKey.StripKeepsEscapes | pkg/server/handler.go:198 | for the key `[0x00]` the slice is `[0x00, 0xFF]`, so a key holding NUL comes back altered |
| TupleKey.DecodePack | pkg/server/handler.go:198 | unescaping the slice recovers the original key of every packed key |
| Printable.HexDigit | pkg/server/handler.go:286 | the digit produced is a lower-case hexadecimal digit that reads back as the given value |
| Printable.EscapeByte | pkg/server/handler.go:277-287 | a printable byte other than a backslash is rendered as itself, a backslash as two backslashes, and any other byte as `\x` followed by two hexadecimal digits whose value is the byte |
| Printable.Printable | pkg/server/handler.go:275-289 | the rendering holds only printable characters and is between one and four times as long as the input |
| Printable.UnprintableEscapeByte | pkg/server/handler.go:277-287 | the rendering of each single byte parses back to that byte |
| Printable.PrintableRoundTrip | pkg/server/handler.go:275-289 | the rendering of every byte string parses back to that byte string, so `printable` is injective |
| Printable.PrintableIsIdentityIff | pkg/server/handler.go:275-289 | the rendering equals the input read as text if and only if every byte is plain printable, and is strictly longer otherwise |
| RespMux.Handle | pkg/respmux/respmux.go:45-59 | registration panics for an empty command first, a nil handler second, and an existing registration third; otherwise the table gains exactly that command with that handler and every other entry is kept |
| RespMux.HandleFunc | pkg/respmux/respmux.go:37-43 | a nil function panics before anything else is checked; otherwise it behaves as `Handle` |
| RespMux.VerbOf | pkg/respmux/respmux.go:63 | the verb that is looked up is always lower-case |
| RespMux.ServeRESP | pkg/respmux/respmux.go:61-70 | a command reaches a handler exactly when its lower-cased verb is registered, and it reaches the handler registered under that verb with its arguments untouched; otherwise the one reply is `ERR unknown command '<verb>'` |
| RespMux.NewMuxKnowsNothing | pkg/respmux/respmux.go:30-35 | a new multiplexer answers every command as unknown |
| RespMux.DispatchIgnoresCase | pkg/respmux/respmux.go:63-66 | two commands whose verbs differ only in ASCII case reach the same handler |
| RespMux.UppercaseVerbUnreachable | pkg/respmux/respmux.go:63-66 | a handler registered under a verb that is not lower-case is never dispatched to |
| RespMux.UppercaseRegistrationIsDead | pkg/respmux/respmux.go:45-70 | registering `PING` succeeds, yet afterwards every command is still unknown |
| Tenancy.Authorize | pkg/tenancy/tenancy.go:20-36 | the error of reading the record is returned as is; access is granted exactly when the read succeeds and the stored value equals the password, where a missing record compares as empty |
| Tenancy.WrongPasswordRefused | pkg/tenancy/tenancy.go:22-30 | a stored value different from the password refuses access without an error |
| Tenancy.ReadErrorPropagates | pkg/tenancy/tenancy.go:23-35 | a failed read refuses access and returns that error |
| Tenancy.EmptyPasswordWithoutRecordAuthorized | pkg/tenancy/tenancy.go:23-27 | with no records at all, an empty password is authorized for any directory and user |
| Tenancy.AuthorizeRecorded | pkg/tenancy/tenancy.go:20-36 | the corrected authorizer grants access exactly when the read succeeds and a record exists under the looked-up key and equals the password; a read error is returned as is |
| Tenancy.AuthorizeRecordedIffProvisioned | pkg/tenancy/tenancy.go:22-27 | when every stored record holds the password in its key, the corrected authorizer accepts exactly the recorded credentials, while the original also accepts the empty password |
| Tenancy.AuthorizersDifferOnlyOnMissingEmptyPassword | pkg/tenancy/tenancy.go:23-27 | the two authorizers agree on every input except an empty password with no record |
| Session.AddInt64 | pkg/server/server.go:34 | the addition stays in 64-bit signed range, is exact when the true sum fits, and otherwise wraps modulo 2^64 |
| Session.NewServer | pkg/server/server.go:29-31 | a new server's connection counter is zero |
| Session.Accept | pkg/server/server.go:33-41 | accepting always admits the connection, gives it no transaction and no directory, and gives it the incremented counter as its id, which is the old counter plus one below the 64-bit bound |
| Session.AcceptManyCounts | pkg/server/server.go:33-41 | `n` accepts from counter `c`, with no overflow, hand out the ids `c+1` to `c+n` in order and leave the counter at `c+n` |
| Session.AcceptIdsIncrease | pkg/server/server.go:29-41 | from a new server, the k-th accepted connection gets id k, so ids are distinct and increasing |
| Session.AcceptWrapsAtBound | pkg/server/server.go:34 | accepting at the largest 64-bit counter hands out the smallest 64-bit id |
| Handlers.Arity | pkg/server/handler.go:42-48 | the check passes exactly when the word count matches; a mismatch writes the one arity error naming the verb and changes nothing else |
| Handlers.Begin | pkg/server/handler.go:80-106 | begin refuses without a directory, and refuses over an open transaction; a failed creation writes its error; a failed read version panics after the transaction was recorded; success records the new transaction and replies `[READ_VERSION, v]` |
| Handlers.Cancel | pkg/server/handler.go:108-117 | cancel always drops the transaction, keeps id, directory and open state, and replies `[CANCEL]` |
| Handlers.Commit | pkg/server/handler.go:119-141 | the transaction is dropped exactly when both the commit and the version read succeed; a failed commit replies `[CANCEL, err]` and a failed version read replies the error, both keeping the transaction |
| Handlers.Set | pkg/server/handler.go:152-161 | with three words the value is stored under the packed key, every other key is left alone, and the reply is `OK`; otherwise only the arity error is written |
| Handlers.Clear | pkg/server/handler.go:218-227 | with two words the packed key is removed, every other key is left alone, and the reply is `OK`; otherwise only the arity error is written |
| Handlers.GetAsWritten | pkg/server/handler.go:163-179 | without a read failure the one reply is the stored value or null; after a read failure the error is written and is followed by a null or bulk reply |
| Handlers.GetAsWrittenRepliesTwice | pkg/server/handler.go:170-178 | a read failure makes the code as written send two replies to one command, where the corrected `get` sends one |
| Handlers.Get | pkg/server/handler.go:163-179 | the corrected `get` writes exactly one reply: the read error if there is one, otherwise the value stored under the packed key or null |
| Handlers.PairEvents | pkg/server/handler.go:210-215 | each pair becomes a two-element array holding its key and value, in order, and no error is written |
| Handlers.SuccessfulPairs | pkg/server/handler.go:196-203 | when every key is long enough to slice, every item is kept, in order, with its key sliced and its value |
| Handlers.CollectAsWritten | pkg/server/handler.go:194-203 | the loop as written panics exactly when some key is too short to slice, which includes every iterator error because its key is nil; otherwise it keeps every item, in order, with its key sliced |
| Handlers.GetRangeAsWritten | pkg/server/handler.go:181-216 | with three words, `get_range` as written panics exactly when some key is too short to slice, so on every iterator error; otherwise it replies the array of all items with sliced keys and never an error |
| Handlers.IteratorErrorPanics | pkg/server/handler.go:194-208 | an iterator whose one item fails crashes `get_range` as written, where the corrected `get_range` replies that item's error |
| Handlers.Collect | pkg/server/handler.go:194-208 | the corrected loop either fails with an error that some item carried, or returns one pair per item whose key decodes back from the packed key; an all-success scan never fails |
| Handlers.GetRange | pkg/server/handler.go:181-216 | the corrected `get_range` panics only on a key too short to slice, replies a failed item's error and nothing else, and otherwise replies the array of decoded pairs |
| Handlers.ClearRange | pkg/server/handler.go:229-241 | with three words, exactly the keys inside the packed range are removed from the view, and the reply is `OK` |
| Handlers.Chroot | pkg/server/handler.go:243-273 | with the authorizer as written or corrected, `chroot` writes exactly one reply and never touches the transaction: the arity error, the credential read error, `ERR unauthorized` when refused, `ERR cannot open subspace` when the directory cannot be opened, and otherwise `OK`; the directory is rebound exactly when all of these checks pass |
| Handlers.EmptyPasswordChrootBinds | pkg/server/handler.go:252-272 | an empty password for a user with no record binds the directory and replies `OK` as written, and is refused with `ERR unauthorized` once corrected |
| Handlers.CorrectedChrootBindsExactlyProvisioned | pkg/server/handler.go:252-272 | with provisioned records, the corrected `chroot` replies `OK` exactly for the recorded credentials |
| Handlers.RunCallback | pkg/server/handler.go:76 | every wrapped callback keeps the connection id and the bound directory, and only appends replies |
| Handlers.Wrap | pkg/server/handler.go:62-78 | `wrap` checks the directory before the transaction; a failed check writes its one error and runs nothing; otherwise the callback runs on the open transaction and the bound directory |
| Handlers.Exec | pkg/server/handler.go:143-150 | as written and corrected, `ping` replies `PONG`; `quit` replies `OK` and closes the connection without touching its context; no handler changes the connection id or takes back a reply |
| Handlers.WrongArityTouchesNothing | pkg/server/handler.go:42-48 | for every handler that checks its word count, a wrong count writes only the arity error, even before a key is packed or a binding is changed |
| Handlers.SetThenGet | pkg/server/handler.go:152-179 | inside one transaction, `get` after `set` of the same key replies the value that was set |
| Handlers.ClearThenGet | pkg/server/handler.go:163-179 | inside one transaction, `get` after `clear` of the same key replies null |
| Handlers.ClearRangeThenGetRange | pkg/server/handler.go:181-241 | after `clear_range` over a range, a scan of that range that matches the view holds no key: without iterator errors it is empty and the reply is an empty array; the corrected code replies an empty array or a single error, and the code as written panics exactly when an item fails |
| Handlers.CollectDecodesPackedKeys | pkg/server/handler.go:194-203 | when the scan yields the packed forms of keys, the corrected loop returns exactly those keys with their values |
| Handlers.ScanKeysInApplicationRange | pkg/server/handler.go:186-190 | keys whose packed forms lie in the packed range, in increasing order, lie in the requested range and are increasing themselves |
| Handlers.MatchingScanNeverPanics | pkg/server/handler.go:192-198 | a scan that matches the view of the packed range never makes the corrected `get_range` panic, and `get_range` as written is served exactly when no item fails |
| Gateway.RegisterAllFresh | pkg/respmux/respmux.go:37-59 | registering verbs that are non-empty, new and pairwise distinct never panics, and adds exactly those verbs with their handlers |
| Gateway.RegistrationsWellFormed | pkg/server/server.go:51-64 | there are eleven registrations; the registered verbs are distinct, non-empty and lower-case; each is bound to the handler; exactly the seven data and lifecycle verbs other than `begin` go through `wrap`; only `begin` runs `begin` |
| Gateway.ServeTable | pkg/server/server.go:47-64 | `Serve` registers without a panic, and its table holds exactly the eleven verbs, each with the method registered for it |
| Gateway.ServeRoutes | pkg/server/server.go:51-64 | every registered verb can be reached and is bound to the handler; wrapping and `begin` are assigned as registered |
| Gateway.Table | pkg/server/server.go:50-64 | the table the server dispatches through has exactly the registered verbs |
| Gateway.EveryVerbReachable | pkg/server/server.go:51-66 | a command is dispatched exactly when its verb is registered, and then runs the handler registered under that verb |
| Gateway.UnknownVerbChangesNothing | pkg/respmux/respmux.go:67-69 | an unregistered verb gets the one unknown-command error and changes nothing else |
| Gateway.Step | pkg/respmux/respmux.go:61-70 | one dispatched command, as written or corrected, keeps the connection id and only appends replies |
| Gateway.Run | pkg/server/server.go:66 | a session of commands, each handled in turn until the connection closes, keeps the connection id and only appends replies |
| Gateway.RouteOf | pkg/server/server.go:51-64 | a registered verb dispatches to a method of the handler, through `wrap` exactly for the wrapped verbs, and to `begin` exactly for `begin` |
| Gateway.DataCommandsNeedChroot | pkg/server/handler.go:64-68 | before `chroot`, as written and corrected, every wrapped verb in any letter case is refused with the chroot error and changes nothing else |
| Gateway.DataCommandsNeedTransaction | pkg/server/handler.go:70-74 | with a directory bound but no transaction, as written and corrected, every wrapped verb is refused with the no-transaction error and changes nothing else |
| Gateway.BeginKeepsOpenTransaction | pkg/server/handler.go:87-91 | `begin` over an open transaction is refused and leaves that transaction in place |
| Gateway.ExecKeepsInv | pkg/server/handler.go:62-273 | as written and corrected, no handler breaks "an open transaction implies a bound directory" or unbinds a directory, and only `begin` opens a transaction |
| Gateway.StepKeepsInv | pkg/server/server.go:47-66 | one dispatched command keeps that invariant and keeps a bound directory bound, and opens a transaction only for the verb `begin` |
| Gateway.RunKeepsInv | pkg/server/server.go:47-66 | every session, as written and corrected, keeps the invariant and never unbinds a directory |
| Gateway.ReachableStatesKeepInv | pkg/server/server.go:33-66 | from the state `Accept` creates, every session, as written and corrected, ends in a state where an open transaction implies a bound directory |

## Left out

- Network I/O, RESP wire framing and the redcon server loop are not modelled. A connection is its context, the reply events written to it, and a closed flag. `Closed`, which only logs, is not modelled.
- The command-line entry points under `cmd/` are not part of this model. That covers flag parsing, opening the database, creating the root and authorization directories, and wiring the server together.
- The FoundationDB engine is not modelled. Every answer it gives during a command is an input: creation, read version, reads, range iteration, commit, committed version, and directory `CreateOrOpen`. A read sees the transaction's view; conflicts, retries of `Transact`, and read-your-writes across concurrent transactions are not modelled.
- The directory layer's prefix allocation is not modelled. A bound directory is its prefix, as `CreateOrOpen` returned it.
- The tuple layer is modelled only for what the core packs: a one-element tuple holding a byte string, whose type code is 0x01, with NUL escaped as 0x00 0xFF. The credential key is a record of its five components rather than bytes.
- Concurrency is not modelled. Each connection runs one command at a time, and `atomic.AddInt64` is an ordinary 64-bit wrapping add.
- `strings.ToLower` is modelled for ASCII only. Verbs are bytes read as characters, so non-ASCII letters are left as they are.
- `subtle.ConstantTimeCompare` is modelled as plain equality, with a missing record comparing as the empty string. Its timing is not modelled.
- The type assertion `value.(bool)` in `Authorize` is not modelled. `Transact` hands back the closure's `false` beside the error, so the assertion does not fail on the paths modelled here.
- `fmt.Sprint(err)` is modelled as the error's text, and `int(...)` conversions of versions as exact integers.
- `RespMux.ServeRESP` requires a command with at least one word. redcon never delivers an empty command, and the source indexes `cmd.Args[0]` without a check.
- `Handlers.Exec` states `ping` and `quit` in its own contract; the other routes are stated by `Begin`, `Chroot` and `Wrap`.
- `Handlers.ClearRangeThenGetRange`: states the reply of a matching scan, not that the store itself honours `clear_range`. The store is an input.

## Findings

| source | as written | input that shows it | evidently intended | confidence | as-written member | corrected member |
|---|---|---|---|---|---|---|
| pkg/server/handler.go:194-208 | `v, err := it.Get()` declares a new `err` inside the loop, so the check at 205-208 reads the outer `err`, which is always nil, and is dead code. On an iterator error `Get` returns a zero `KeyValue` with a nil key, and the slice at 198 runs before `err` is looked at | a scan whose first item fails: the slice of the nil key panics and the server crashes instead of replying the error | report the iterator's error and return no partial result | not executed | Handlers.IteratorErrorPanics | Handlers.GetRange |
| pkg/server/handler.go:198 | returned keys are the packed key with only the prefix, the type code and the terminator sliced off, so NUL bytes stay escaped | key `[0x00]` is packed as `prefix 01 00 FF 00` and comes back as `[0x00, 0xFF]` | return the key the client stored | not executed | TupleKey.StripKeepsEscapes | TupleKey.DecodePack |
| pkg/tenancy/tenancy.go:23-27 | a missing record reads as nil, which compares equal to an empty password | `chroot <dir> <user> ""` with no record for that user is authorized | authorize only credentials that were provisioned | not executed | Handlers.EmptyPasswordChrootBinds | Handlers.CorrectedChrootBindsExactlyProvisioned |
| pkg/server/handler.go:170-178 | after writing the read error, `get` falls through and also writes a null or bulk reply | a read of `get k` that fails: two replies are written for one command | write the error and return | not executed | Handlers.GetAsWrittenRepliesTwice | Handlers.Get |

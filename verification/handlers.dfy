/** The command handlers of one connection (`handler.go`). Each takes the connection
    (its context, the replies written so far, whether it is closed), the command's
    arguments, and `Env`, the answers the store and directory layer give during this
    one command. */
module Handlers {
  import opened Wrappers
  import opened Bytes
  import opened Resp
  import opened Session
  import opened TupleKey
  import opened Tenancy

  const CancelTag := "CANCEL"
  const CommitTag := "COMMIT"
  const ReadVersionTag := "READ_VERSION"
  const OkReply := "OK"
  const PongReply := "PONG"
  const ChrootError := "ERR must chroot into a directory first"
  const NoTransactionError := "ERR no open transaction"
  const TransactionOpenError := "ERR transaction already open"
  const BeginError := "ERR cannot begin transaction"
  const UnauthorizedError := "ERR unauthorized"
  const SubspaceError := "ERR cannot open subspace"
  const SliceBoundsPanic := "runtime error: slice bounds out of range"

  /** A connection: its context, every reply written to it so far, and whether it
      has been closed. */
  datatype Conn = Conn(ctx: ConnCtx, out: seq<Event>, closed: bool)

  function Write(c: Conn, events: seq<Event>): Conn {
    c.(out := c.out + events)
  }

  /** A handler either returns, or panics and takes the server down. */
  datatype Outcome = Served(conn: Conn) | Panicked(reason: string)

  /** A failed `tn.Get(key).Get()`: the error, and the value returned beside it. */
  datatype ReadFault = ReadFault(err: string, value: Option<Bytes>)

  /** One step of the range iterator: `it.Get()` returned a pair, or an error beside
      the zero `KeyValue`, whose key is nil. */
  datatype ScanItem = Item(key: Bytes, value: Bytes) | ItemError(err: string)

  datatype KeyValue = KeyValue(key: Bytes, value: Bytes)

  /** The store's and directory layer's answers during one command. */
  datatype Env = Env(
    newTransaction: Result<map<Bytes, Bytes>>,    // CreateTransaction, and the data it reads
    readVersion: Result<int>,                      // GetReadVersion().MustGet()
    commitError: Option<string>,                   // Commit().Get()
    committedVersion: Result<int>,                 // GetCommittedVersion()
    readFault: Option<ReadFault>,                  // a failure of the read in `get`
    scan: seq<ScanItem>,                           // the range iterator of `get_range`
    credentials: map<CredentialKey, Bytes>,        // the authorization subspace
    credentialError: Option<string>,               // a failure reading it
    openedSubspace: Result<Bytes>)                 // CreateOrOpen of the tenant directory

  /** The handler's fixed configuration: the prefix of the authorization subspace. */
  datatype Handler = Handler(authDirectory: Bytes)

  /** Which handlers run: the code as written, or the code with the defects listed
      under the README's findings corrected. */
  datatype Code = AsWritten | Corrected

  // ---------------------------------------------------------------------------
  // Guards

  function ArityError(cmd: seq<Bytes>): Event
    requires |cmd| > 0
  {
    Error("ERR wrong number of arguments for '" + AsString(cmd[0]) + "' command")
  }

  /** `arity`: true exactly when the command has `n` words; otherwise one error naming
      the verb is written and nothing else changes. */
  function Arity(n: nat, c: Conn, cmd: seq<Bytes>): (r: (bool, Conn))
    requires |cmd| > 0
    ensures r.0 <==> |cmd| == n
    ensures r.0 ==> r.1 == c
    ensures !r.0 ==> r.1 == Write(c, [ArityError(cmd)])
  {
    if |cmd| != n then (false, Write(c, [ArityError(cmd)])) else (true, c)
  }

  /** `chrooted`: a directory is bound. */
  predicate Chrooted(c: Conn) {
    c.ctx.directory.Some?
  }

  // ---------------------------------------------------------------------------
  // Transaction lifecycle

  /** `begin`: needs a bound directory and no open transaction. On success the new
      transaction is recorded before its read version is fetched, and a failure to
      fetch it panics (`MustGet`). */
  function Begin(c: Conn, env: Env): (r: Outcome)
    ensures !Chrooted(c) ==> r == Served(Write(c, [Error(ChrootError)]))
    ensures Chrooted(c) && c.ctx.transaction.Some? ==> r == Served(Write(c, [Error(TransactionOpenError)]))
    ensures Chrooted(c) && c.ctx.transaction.None? && env.newTransaction.Err? ==>
              r == Served(Write(c, [Error(BeginError)]))
    ensures r.Panicked? <==>
              Chrooted(c) && c.ctx.transaction.None? && env.newTransaction.Ok? && env.readVersion.Err?
    ensures Chrooted(c) && c.ctx.transaction.None? && env.newTransaction.Ok? && env.readVersion.Ok? ==>
              && r.Served?
              && r.conn.ctx == c.ctx.(transaction := Some(Tx(env.newTransaction.value)))
              && r.conn.out == c.out + [Array(2), Str(ReadVersionTag), Int(env.readVersion.value)]
              && r.conn.closed == c.closed
  {
    if !Chrooted(c) then Served(Write(c, [Error(ChrootError)]))
    else if c.ctx.transaction.Some? then Served(Write(c, [Error(TransactionOpenError)]))
    else match env.newTransaction
      case Err(_) => Served(Write(c, [Error(BeginError)]))
      case Ok(data) =>
        var withTx := c.(ctx := c.ctx.(transaction := Some(Tx(data))));
        match env.readVersion
        case Err(e) => Panicked(e)
        case Ok(rv) => Served(Write(withTx, [Array(2), Str(ReadVersionTag), Int(rv)]))
  }

  /** `cancel`: always drops the transaction and replies `[CANCEL]`. */
  function Cancel(c: Conn): (r: Conn)
    ensures r.ctx.transaction.None?
    ensures r.ctx.id == c.ctx.id && r.ctx.directory == c.ctx.directory && r.closed == c.closed
    ensures r.out == c.out + [Array(1), Str(CancelTag)]
    ensures c.out <= r.out
  {
    Write(c.(ctx := c.ctx.(transaction := None)), [Array(1), Str(CancelTag)])
  }

  /** `commit`: drops the transaction only when both the commit and the read of the
      committed version succeed, replying `[COMMIT, version]`. A failed commit replies
      `[CANCEL, err]` and a failed version read replies the error, both keeping the
      transaction. */
  function Commit(c: Conn, env: Env): (r: Conn)
    requires c.ctx.transaction.Some?
    ensures r.ctx.id == c.ctx.id && r.ctx.directory == c.ctx.directory && r.closed == c.closed
    ensures r.ctx.transaction.None? <==> env.commitError.None? && env.committedVersion.Ok?
    ensures r.ctx.transaction.Some? ==> r.ctx.transaction == c.ctx.transaction
    ensures env.commitError.Some? ==> r.out == c.out + [Array(2), Str(CancelTag), Error(env.commitError.value)]
    ensures env.commitError.None? && env.committedVersion.Err? ==>
              r.out == c.out + [Error(env.committedVersion.error)]
    ensures env.commitError.None? && env.committedVersion.Ok? ==>
              r.out == c.out + [Array(2), Str(CommitTag), Int(env.committedVersion.value)]
    ensures c.out <= r.out
  {
    if env.commitError.Some? then Write(c, [Array(2), Str(CancelTag), Error(env.commitError.value)])
    else match env.committedVersion
      case Err(e) => Write(c, [Error(e)])
      case Ok(v) => Write(c.(ctx := c.ctx.(transaction := None)), [Array(2), Str(CommitTag), Int(v)])
  }

  // ---------------------------------------------------------------------------
  // Single-key commands

  /** The transaction after a data command replaced its view. */
  function WithView(c: Conn, view: map<Bytes, Bytes>): Conn {
    c.(ctx := c.ctx.(transaction := Some(Tx(view))))
  }

  /** `set`: with three words, writes the value under the packed key, leaving every
      other key of the transaction's view as it was, and replies `OK`. */
  function Set(c: Conn, cmd: seq<Bytes>, tx: Tx, s: Subspace): (r: Conn)
    requires |cmd| > 0
    ensures r.ctx.id == c.ctx.id && r.ctx.directory == c.ctx.directory && r.closed == c.closed
    ensures |cmd| != 3 ==> r == Write(c, [ArityError(cmd)])
    ensures |cmd| == 3 ==> r.out == c.out + [Str(OkReply)] && r.ctx.transaction.Some?
    ensures |cmd| == 3 ==>
              var view := r.ctx.transaction.value.view;
              var key := Pack(s.prefix, cmd[1]);
              && key in view && view[key] == cmd[2]
              && forall k :: k != key ==> (k in view <==> k in tx.view) && (k in view ==> view[k] == tx.view[k])
    ensures c.out <= r.out
  {
    var a := Arity(3, c, cmd);
    if !a.0 then a.1
    else Write(WithView(c, tx.view[Pack(s.prefix, cmd[1]) := cmd[2]]), [Str(OkReply)])
  }

  /** `clear`: with two words, removes the packed key from the transaction's view,
      leaving every other key as it was, and replies `OK`. */
  function Clear(c: Conn, cmd: seq<Bytes>, tx: Tx, s: Subspace): (r: Conn)
    requires |cmd| > 0
    ensures r.ctx.id == c.ctx.id && r.ctx.directory == c.ctx.directory && r.closed == c.closed
    ensures |cmd| != 2 ==> r == Write(c, [ArityError(cmd)])
    ensures |cmd| == 2 ==> r.out == c.out + [Str(OkReply)] && r.ctx.transaction.Some?
    ensures |cmd| == 2 ==>
              var view := r.ctx.transaction.value.view;
              var key := Pack(s.prefix, cmd[1]);
              && key !in view
              && forall k :: k != key ==> (k in view <==> k in tx.view) && (k in view ==> view[k] == tx.view[k])
    ensures c.out <= r.out
  {
    var a := Arity(2, c, cmd);
    if !a.0 then a.1
    else Write(WithView(c, tx.view - {Pack(s.prefix, cmd[1])}), [Str(OkReply)])
  }

  /** The reply to a successful read: the value, or null for an absent key. */
  function ValueReply(view: map<Bytes, Bytes>, key: Bytes): Event {
    if key in view then Bulk(view[key]) else Null
  }

  /** `get` as written: on a read failure it writes the error and then also the value
      the failed read returned, two replies to one command. */
  function GetAsWritten(c: Conn, cmd: seq<Bytes>, tx: Tx, s: Subspace, env: Env): (r: Conn)
    requires |cmd| > 0
    ensures r.ctx == c.ctx && r.closed == c.closed
    ensures |cmd| != 2 ==> r == Write(c, [ArityError(cmd)])
    ensures |cmd| == 2 && env.readFault.None? ==> r.out == c.out + [ValueReply(tx.view, Pack(s.prefix, cmd[1]))]
    ensures |cmd| == 2 && env.readFault.Some? ==>
              var f := env.readFault.value;
              r.out == c.out + [Error(f.err), if f.value.Some? then Bulk(f.value.value) else Null]
    ensures c.out <= r.out
  {
    var a := Arity(2, c, cmd);
    if !a.0 then a.1
    else
      var key := Pack(s.prefix, cmd[1]);
      var val := if env.readFault.Some? then env.readFault.value.value
                 else if key in tx.view then Some(tx.view[key]) else None;
      var c1 := if env.readFault.Some? then Write(c, [Error(env.readFault.value.err)]) else c;
      Write(c1, [if val.None? then Null else Bulk(val.value)])
  }

  /** `get` as evidently intended: exactly one reply, the error on a read failure and
      otherwise the value under the packed key, or null. */
  function Get(c: Conn, cmd: seq<Bytes>, tx: Tx, s: Subspace, env: Env): (r: Conn)
    requires |cmd| > 0
    ensures r.ctx == c.ctx && r.closed == c.closed
    ensures |cmd| != 2 ==> r == Write(c, [ArityError(cmd)])
    ensures |cmd| == 2 ==> |r.out| == |c.out| + 1 && r.out[..|c.out|] == c.out
    ensures |cmd| == 2 && env.readFault.Some? ==> r.out[|c.out|] == Error(env.readFault.value.err)
    ensures |cmd| == 2 && env.readFault.None? ==> r.out[|c.out|] == ValueReply(tx.view, Pack(s.prefix, cmd[1]))
    ensures c.out <= r.out
  {
    var a := Arity(2, c, cmd);
    if !a.0 then a.1
    else if env.readFault.Some? then Write(c, [Error(env.readFault.value.err)])
    else Write(c, [ValueReply(tx.view, Pack(s.prefix, cmd[1]))])
  }

  /** A read failure makes the as-written `get` answer one command with two replies. */
  lemma GetAsWrittenRepliesTwice(c: Conn, cmd: seq<Bytes>, tx: Tx, s: Subspace, env: Env)
    requires |cmd| == 2 && env.readFault.Some?
    ensures |GetAsWritten(c, cmd, tx, s, env).out| == |c.out| + 2
    ensures |Get(c, cmd, tx, s, env).out| == |c.out| + 1
  {
  }

  // ---------------------------------------------------------------------------
  // Range commands

  /** The replies for a list of pairs: one `[key, value]` array per pair, in order. */
  function PairEvents(kvs: seq<KeyValue>): (es: seq<Event>)
    ensures |es| == 3 * |kvs|
    ensures forall i :: 0 <= i < |kvs| ==>
              es[3 * i] == Array(2) && es[3 * i + 1] == Bulk(kvs[i].key) && es[3 * i + 2] == Bulk(kvs[i].value)
    ensures forall e :: e in es ==> !e.Error?
    decreases |kvs|
  {
    if |kvs| == 0 then []
    else
      var rest := PairEvents(kvs[1..]);
      var es := [Array(2), Bulk(kvs[0].key), Bulk(kvs[0].value)] + rest;
      assert forall i :: 1 <= i < |kvs| ==> es[3 * i] == rest[3 * (i - 1)] && kvs[i] == kvs[1..][i - 1];
      es
  }

  /** The whole `get_range` reply: the array header, then the pairs. */
  function PairsReply(kvs: seq<KeyValue>): seq<Event> {
    [Array(|kvs|)] + PairEvents(kvs)
  }

  /** The key `it.Get()` hands back: the item's key, or the nil key of the zero
      `KeyValue` returned beside an error. */
  function KeyOf(item: ScanItem): Bytes {
    if item.Item? then item.key else []
  }

  /** Some key the loop of `get_range` slices is too short for the slice at
      handler.go:198. An iterator error always is: its key is empty. */
  predicate SliceFails(prefix: Bytes, scan: seq<ScanItem>) {
    exists i :: 0 <= i < |scan| && |KeyOf(scan[i])| < |prefix| + 2
  }

  /** The pairs the as-written loop keeps when no slice fails: every item, in order,
      with its key sliced as at handler.go:198. */
  function SuccessfulPairs(prefix: Bytes, scan: seq<ScanItem>): (kvs: seq<KeyValue>)
    requires forall i :: 0 <= i < |scan| ==> |prefix| + 2 <= |KeyOf(scan[i])|
    ensures |kvs| == |scan|
    ensures forall i :: 0 <= i < |scan| ==>
              scan[i].Item? && kvs[i] == KeyValue(StripAsWritten(prefix, KeyOf(scan[i])), scan[i].value)
    decreases |scan|
  {
    if |scan| == 0 then []
    else
      var last := scan[|scan| - 1];
      var init := scan[..|scan| - 1];
      assert forall i :: 0 <= i < |init| ==> init[i] == scan[i];
      assert |prefix| + 2 <= |KeyOf(scan[|scan| - 1])|;
      SuccessfulPairs(prefix, init) + [KeyValue(StripAsWritten(prefix, KeyOf(last)), last.value)]
  }

  /** The loop of `get_range` as written: every key is sliced before the error is
      looked at, so an iterator error, whose key is empty, panics, and so does a key
      too short to slice; the `err` the loop assigns is a new variable shadowing the
      one checked after the loop. */
  method CollectAsWritten(prefix: Bytes, scan: seq<ScanItem>) returns (results: seq<KeyValue>, outOfBounds: bool)
    ensures outOfBounds <==> SliceFails(prefix, scan)
    ensures !outOfBounds ==> results == SuccessfulPairs(prefix, scan)
  {
    results := [];
    var i := 0;
    while i < |scan|
      invariant 0 <= i <= |scan|
      invariant forall j :: 0 <= j < i ==> |prefix| + 2 <= |KeyOf(scan[j])|
      invariant |results| == i
      invariant forall j :: 0 <= j < i ==> results[j] == KeyValue(StripAsWritten(prefix, KeyOf(scan[j])), scan[j].value)
    {
      var v := scan[i];
      var key := KeyOf(v);
      if |key| < |prefix| + 2 {
        return [], true;
      }
      var stripped := key[|prefix| + 1 .. |key| - 1];
      if v.Item? {
        results := results + [KeyValue(stripped, v.value)];
      }
      i := i + 1;
    }
    outOfBounds := false;
  }

  /** `get_range` as written: with three words it panics on any iterator error and on
      any key too short to slice, so the error reply at handler.go:205-208 is never
      reached; otherwise it replies every pair with its key sliced, never an error. */
  function GetRangeAsWritten(c: Conn, cmd: seq<Bytes>, s: Subspace, env: Env): (r: Outcome)
    requires |cmd| > 0
    ensures |cmd| != 3 ==> r == Served(Write(c, [ArityError(cmd)]))
    ensures r.Panicked? <==> |cmd| == 3 && SliceFails(s.prefix, env.scan)
    ensures |cmd| == 3 && (exists i :: 0 <= i < |env.scan| && env.scan[i].ItemError?) ==> r.Panicked?
    ensures |cmd| == 3 && r.Served? ==> r == Served(Write(c, PairsReply(SuccessfulPairs(s.prefix, env.scan))))
    ensures |cmd| == 3 && r.Served? ==> forall e :: e in r.conn.out[|c.out|..] ==> !e.Error?
    ensures r.Served? ==> r.conn.ctx == c.ctx && r.conn.closed == c.closed && c.out <= r.conn.out
  {
    var a := Arity(3, c, cmd);
    if !a.0 then Served(a.1)
    else if SliceFails(s.prefix, env.scan) then Panicked(SliceBoundsPanic)
    else
      var c1 := Write(c, PairsReply(SuccessfulPairs(s.prefix, env.scan)));
      assert c1.out[|c.out|..] == PairsReply(SuccessfulPairs(s.prefix, env.scan));
      Served(c1)
  }

  /** The iterator's items, gathered as `get_range` evidently intends. */
  datatype Collected = Pairs(kvs: seq<KeyValue>) | ScanFailed(err: string) | KeyOutOfBounds

  /** Gathering as evidently intended: the first failed item aborts with its error,
      and every key is sliced and unescaped back to the application key. A key too
      short to slice still panics, as the slice does. */
  function Collect(prefix: Bytes, scan: seq<ScanItem>): (r: Collected)
    ensures r.Pairs? ==> |r.kvs| == |scan|
    ensures r.Pairs? ==> forall i :: 0 <= i < |scan| ==>
              && scan[i].Item? && |prefix| + 2 <= |scan[i].key|
              && r.kvs[i] == KeyValue(DecodeKey(prefix, scan[i].key), scan[i].value)
    ensures r.ScanFailed? ==> exists i :: 0 <= i < |scan| && scan[i].ItemError? && scan[i].err == r.err
    ensures (forall i :: 0 <= i < |scan| ==> scan[i].Item? ==> |prefix| + 2 <= |scan[i].key|) ==> !r.KeyOutOfBounds?
    ensures (forall i :: 0 <= i < |scan| ==> scan[i].Item?) ==> !r.ScanFailed?
    decreases |scan|
  {
    if |scan| == 0 then Pairs([])
    else match scan[0]
      case ItemError(err) => ScanFailed(err)
      case Item(key, value) =>
        if |key| < |prefix| + 2 then KeyOutOfBounds
        else
          var rest := Collect(prefix, scan[1..]);
          if rest.Pairs? then
            var kvs := [KeyValue(DecodeKey(prefix, key), value)] + rest.kvs;
            assert forall i :: 1 <= i < |scan| ==> scan[i] == scan[1..][i - 1] && kvs[i] == rest.kvs[i - 1];
            Pairs(kvs)
          else
            assert forall i :: 1 <= i < |scan| ==> scan[i] == scan[1..][i - 1];
            rest
  }

  /** `get_range` as evidently intended: with three words, a failed item yields that
      one error and no partial result, and otherwise the pairs with their original
      keys are replied. */
  function GetRange(c: Conn, cmd: seq<Bytes>, s: Subspace, env: Env): (r: Outcome)
    requires |cmd| > 0
    ensures |cmd| != 3 ==> r == Served(Write(c, [ArityError(cmd)]))
    ensures r.Panicked? <==> |cmd| == 3 && Collect(s.prefix, env.scan).KeyOutOfBounds?
    ensures |cmd| == 3 && Collect(s.prefix, env.scan).ScanFailed? ==>
              r == Served(Write(c, [Error(Collect(s.prefix, env.scan).err)]))
    ensures |cmd| == 3 && Collect(s.prefix, env.scan).Pairs? ==>
              r == Served(Write(c, PairsReply(Collect(s.prefix, env.scan).kvs)))
    ensures r.Served? ==> r.conn.ctx == c.ctx && r.conn.closed == c.closed && c.out <= r.conn.out
  {
    var a := Arity(3, c, cmd);
    if !a.0 then Served(a.1)
    else match Collect(s.prefix, env.scan)
      case KeyOutOfBounds => Panicked(SliceBoundsPanic)
      case ScanFailed(e) => Served(Write(c, [Error(e)]))
      case Pairs(kvs) => Served(Write(c, PairsReply(kvs)))
  }

  /** `clear_range`: with three words, removes from the transaction's view exactly the
      keys in the packed range, and replies `OK`. */
  function ClearRange(c: Conn, cmd: seq<Bytes>, tx: Tx, s: Subspace): (r: Conn)
    requires |cmd| > 0
    ensures r.ctx.id == c.ctx.id && r.ctx.directory == c.ctx.directory && r.closed == c.closed
    ensures |cmd| != 3 ==> r == Write(c, [ArityError(cmd)])
    ensures |cmd| == 3 ==> r.out == c.out + [Str(OkReply)] && r.ctx.transaction.Some?
    ensures |cmd| == 3 ==>
              var view := r.ctx.transaction.value.view;
              var lo, hi := Pack(s.prefix, cmd[1]), Pack(s.prefix, cmd[2]);
              forall k :: (k in view <==> k in tx.view && !InRange(k, lo, hi)) && (k in view ==> view[k] == tx.view[k])
    ensures c.out <= r.out
  {
    var a := Arity(3, c, cmd);
    if !a.0 then a.1
    else
      var lo, hi := Pack(s.prefix, cmd[1]), Pack(s.prefix, cmd[2]);
      Write(WithView(c, map k | k in tx.view && !InRange(k, lo, hi) :: tx.view[k]), [Str(OkReply)])
  }

  // ---------------------------------------------------------------------------
  // Binding a directory

  /** The authorizer's verdict on a four-word `chroot`: `Authorize` as written, or the
      corrected authorizer that needs a record. */
  function ChrootVerdict(h: Handler, code: Code, cmd: seq<Bytes>, env: Env): Verdict
    requires |cmd| == 4
  {
    if code.AsWritten? then Authorize(h.authDirectory, env.credentials, env.credentialError, cmd[1], cmd[2], cmd[3])
    else AuthorizeRecorded(h.authDirectory, env.credentials, env.credentialError, cmd[1], cmd[2], cmd[3])
  }

  /** When `chroot` binds: four words, an authorized triple, and a directory the layer
      could open. */
  predicate ChrootSucceeds(h: Handler, code: Code, cmd: seq<Bytes>, env: Env) {
    && |cmd| == 4
    && ChrootVerdict(h, code, cmd, env).authorized
    && env.openedSubspace.Ok?
  }

  /** `chroot`: binds the opened directory when it succeeds, even over an open
      transaction, and otherwise leaves the binding alone; the transaction is never
      touched. Exactly one reply is written: the arity error, the authorizer's error,
      `ERR unauthorized`, `ERR cannot open subspace`, or `OK`. */
  function Chroot(h: Handler, code: Code, c: Conn, cmd: seq<Bytes>, env: Env): (r: Conn)
    requires |cmd| > 0
    ensures r.ctx.id == c.ctx.id && r.ctx.transaction == c.ctx.transaction && r.closed == c.closed
    ensures r.ctx.directory == if ChrootSucceeds(h, code, cmd, env) then Some(Subspace(env.openedSubspace.value)) else c.ctx.directory
    ensures |r.out| == |c.out| + 1 && r.out[..|c.out|] == c.out
    ensures |cmd| != 4 ==> r.out[|c.out|] == ArityError(cmd)
    ensures |cmd| == 4 && env.credentialError.Some? ==> r.out[|c.out|] == Error(env.credentialError.value)
    ensures |cmd| == 4 && env.credentialError.None? && !ChrootVerdict(h, code, cmd, env).authorized ==>
              r.out[|c.out|] == Error(UnauthorizedError)
    ensures |cmd| == 4 && ChrootVerdict(h, code, cmd, env).authorized && env.openedSubspace.Err? ==>
              r.out[|c.out|] == Error(SubspaceError)
    ensures ChrootSucceeds(h, code, cmd, env) ==> r.out[|c.out|] == Str(OkReply)
  {
    var a := Arity(4, c, cmd);
    if !a.0 then a.1
    else
      var verdict := ChrootVerdict(h, code, cmd, env);
      if verdict.err.Some? then Write(c, [Error(verdict.err.value)])
      else if !verdict.authorized then Write(c, [Error(UnauthorizedError)])
      else match env.openedSubspace
        case Err(_) => Write(c, [Error(SubspaceError)])
        case Ok(prefix) => Write(c.(ctx := c.ctx.(directory := Some(Subspace(prefix)))), [Str(OkReply)])
  }

  /** An empty password for a user with no record binds the directory as written, and
      is refused once corrected. */
  lemma EmptyPasswordChrootBinds(h: Handler, c: Conn, cmd: seq<Bytes>, env: Env)
    requires |cmd| == 4 && cmd[3] == [] && env.credentialError.None? && env.openedSubspace.Ok?
    requires LookupKey(h.authDirectory, cmd[1], cmd[2], cmd[3]) !in env.credentials
    ensures Chroot(h, AsWritten, c, cmd, env).ctx.directory == Some(Subspace(env.openedSubspace.value))
    ensures Chroot(h, AsWritten, c, cmd, env).out == c.out + [Str(OkReply)]
    ensures Chroot(h, Corrected, c, cmd, env).ctx.directory == c.ctx.directory
    ensures Chroot(h, Corrected, c, cmd, env).out == c.out + [Error(UnauthorizedError)]
  {
    var r := Chroot(h, Corrected, c, cmd, env);
    assert r.out == r.out[..|c.out|] + [r.out[|c.out|]];
    var w := Chroot(h, AsWritten, c, cmd, env);
    assert w.out == w.out[..|c.out|] + [w.out[|c.out|]];
  }

  /** With provisioned records and a directory that opens, the corrected `chroot`
      binds exactly the provisioned credentials. */
  lemma CorrectedChrootBindsExactlyProvisioned(h: Handler, c: Conn, cmd: seq<Bytes>, env: Env)
    requires |cmd| == 4 && env.credentialError.None? && env.openedSubspace.Ok?
    requires Provisioned(env.credentials)
    ensures Chroot(h, Corrected, c, cmd, env).out[|c.out|] == Str(OkReply) <==>
              LookupKey(h.authDirectory, cmd[1], cmd[2], cmd[3]) in env.credentials
  {
    AuthorizeRecordedIffProvisioned(h.authDirectory, env.credentials, cmd[1], cmd[2], cmd[3]);
  }

  // ---------------------------------------------------------------------------
  // Routing

  /** The callbacks `wrap` guards. */
  datatype Callback = CancelCb | CommitCb | GetCb | GetRangeCb | SetCb | ClearCb | ClearRangeCb

  /** The handlers the server registers: four plain ones and the wrapped callbacks. */
  datatype Route = PingRoute | QuitRoute | ChrootRoute | BeginRoute | Wrapped(cb: Callback)

  /** Runs a callback on the open transaction and bound subspace it was handed. */
  function RunCallback(cb: Callback, code: Code, c: Conn, cmd: seq<Bytes>, tx: Tx, s: Subspace, env: Env): (r: Outcome)
    requires |cmd| > 0
    requires c.ctx.transaction == Some(tx)
    ensures r.Served? ==> r.conn.ctx.id == c.ctx.id && r.conn.ctx.directory == c.ctx.directory && c.out <= r.conn.out
  {
    match cb
    case CancelCb => Served(Cancel(c))
    case CommitCb => Served(Commit(c, env))
    case GetCb => Served(if code.AsWritten? then GetAsWritten(c, cmd, tx, s, env) else Get(c, cmd, tx, s, env))
    case GetRangeCb => if code.AsWritten? then GetRangeAsWritten(c, cmd, s, env) else GetRange(c, cmd, s, env)
    case SetCb => Served(Set(c, cmd, tx, s))
    case ClearCb => Served(Clear(c, cmd, tx, s))
    case ClearRangeCb => Served(ClearRange(c, cmd, tx, s))
  }

  /** `wrap`: checks the directory first and the transaction second; a failed check
      writes its one error, runs nothing and changes nothing. */
  function Wrap(cb: Callback, code: Code, c: Conn, cmd: seq<Bytes>, env: Env): (r: Outcome)
    requires |cmd| > 0
    ensures !Chrooted(c) ==> r == Served(Write(c, [Error(ChrootError)]))
    ensures Chrooted(c) && c.ctx.transaction.None? ==> r == Served(Write(c, [Error(NoTransactionError)]))
    ensures Chrooted(c) && c.ctx.transaction.Some? ==>
              r == RunCallback(cb, code, c, cmd, c.ctx.transaction.value, c.ctx.directory.value, env)
    ensures r.Served? ==> r.conn.ctx.id == c.ctx.id && r.conn.ctx.directory == c.ctx.directory && c.out <= r.conn.out
  {
    if !Chrooted(c) then Served(Write(c, [Error(ChrootError)]))
    else if c.ctx.transaction.None? then Served(Write(c, [Error(NoTransactionError)]))
    else RunCallback(cb, code, c, cmd, c.ctx.transaction.value, c.ctx.directory.value, env)
  }

  /** Runs the handler a route names, as written or corrected. `ping` replies `PONG`;
      `quit` replies `OK` and closes the connection; neither looks at the context. */
  function Exec(h: Handler, code: Code, route: Route, c: Conn, cmd: seq<Bytes>, env: Env): (r: Outcome)
    requires |cmd| > 0
    ensures route == PingRoute ==> r == Served(Write(c, [Str(PongReply)]))
    ensures route == QuitRoute ==> r.Served? && r.conn.closed && r.conn.ctx == c.ctx && r.conn.out == c.out + [Str(OkReply)]
    ensures r.Served? ==> r.conn.ctx.id == c.ctx.id && c.out <= r.conn.out
  {
    match route
    case PingRoute => Served(Write(c, [Str(PongReply)]))
    case QuitRoute => Served(Write(c, [Str(OkReply)]).(closed := true))
    case ChrootRoute => Served(Chroot(h, code, c, cmd, env))
    case BeginRoute => Begin(c, env)
    case Wrapped(cb) => Wrap(cb, code, c, cmd, env)
  }

  // ---------------------------------------------------------------------------
  // Properties across handlers

  /** The word count a route checks, if it checks one. */
  function ExpectedArity(route: Route): Option<nat> {
    match route
    case ChrootRoute => Some(4)
    case Wrapped(GetCb) => Some(2)
    case Wrapped(ClearCb) => Some(2)
    case Wrapped(SetCb) => Some(3)
    case Wrapped(GetRangeCb) => Some(3)
    case Wrapped(ClearRangeCb) => Some(3)
    case _ => None
  }

  /** A wrong word count, once the guards before it pass, writes the one arity error
      and returns before any key is packed or the transaction or binding is touched. */
  lemma WrongArityTouchesNothing(h: Handler, code: Code, route: Route, c: Conn, cmd: seq<Bytes>, env: Env)
    requires |cmd| > 0
    requires ExpectedArity(route).Some? && |cmd| != ExpectedArity(route).value
    requires route.Wrapped? ==> Chrooted(c) && c.ctx.transaction.Some?
    ensures Exec(h, code, route, c, cmd, env) == Served(Write(c, [ArityError(cmd)]))
  {
    if route == ChrootRoute {
      assert Chroot(h, code, c, cmd, env) == Write(c, [ArityError(cmd)]);
    }
  }

  /** Inside one transaction, `get` after `set` of the same key returns the value set. */
  lemma SetThenGet(h: Handler, code: Code, c: Conn, k: Bytes, v: Bytes, verb1: Bytes, verb2: Bytes, env1: Env, env2: Env)
    requires Chrooted(c) && c.ctx.transaction.Some?
    requires env2.readFault.None?
    ensures var r1 := Exec(h, code, Wrapped(SetCb), c, [verb1, k, v], env1);
            && r1.Served?
            && var r2 := Exec(h, code, Wrapped(GetCb), r1.conn, [verb2, k], env2);
            && r2.Served?
            && r2.conn.out == r1.conn.out + [Bulk(v)]
  {
    var r1 := Exec(h, code, Wrapped(SetCb), c, [verb1, k, v], env1);
    var s := c.ctx.directory.value;
    var r2 := Exec(h, code, Wrapped(GetCb), r1.conn, [verb2, k], env2);
    assert r2.conn.out[..|r1.conn.out|] == r1.conn.out;
    assert r2.conn.out[|r1.conn.out|] == Bulk(v);
  }

  /** Inside one transaction, `get` after `clear` of the same key returns null. */
  lemma ClearThenGet(h: Handler, code: Code, c: Conn, k: Bytes, verb1: Bytes, verb2: Bytes, env1: Env, env2: Env)
    requires Chrooted(c) && c.ctx.transaction.Some?
    requires env2.readFault.None?
    ensures var r1 := Exec(h, code, Wrapped(ClearCb), c, [verb1, k], env1);
            && r1.Served?
            && var r2 := Exec(h, code, Wrapped(GetCb), r1.conn, [verb2, k], env2);
            && r2.Served?
            && r2.conn.out == r1.conn.out + [Null]
  {
    var r1 := Exec(h, code, Wrapped(ClearCb), c, [verb1, k], env1);
    var r2 := Exec(h, code, Wrapped(GetCb), r1.conn, [verb2, k], env2);
    assert r2.conn.out[..|r1.conn.out|] == r1.conn.out;
    assert r2.conn.out[|r1.conn.out|] == Null;
  }

  /** What the store promises of a range iterator over `[lo, hi)` of a view: its
      successful items are entries of the view inside the range, every such entry
      appears, and keys strictly ascend. */
  predicate ScanMatches(view: map<Bytes, Bytes>, lo: Bytes, hi: Bytes, scan: seq<ScanItem>) {
    && (forall i :: 0 <= i < |scan| && scan[i].Item? ==>
          scan[i].key in view && view[scan[i].key] == scan[i].value && InRange(scan[i].key, lo, hi))
    && (forall k :: k in view && InRange(k, lo, hi) ==> exists i :: 0 <= i < |scan| && scan[i] == Item(k, view[k]))
    && (forall i, j :: 0 <= i < j < |scan| && scan[i].Item? && scan[j].Item? ==> LexLt(scan[i].key, scan[j].key))
  }

  /** `get_range` over a scan that yields no item but only errors: the empty scan is
      replied as the empty array; once corrected, an error is replied instead; as
      written, any error panics. */
  lemma ScanOfErrorsOnly(c: Conn, cmd: seq<Bytes>, s: Subspace, env: Env)
    requires |cmd| == 3
    requires forall i :: 0 <= i < |env.scan| ==> env.scan[i].ItemError?
    ensures env.scan == [] ==>
              GetRange(c, cmd, s, env) == Served(Write(c, [Array(0)])) &&
              GetRangeAsWritten(c, cmd, s, env) == Served(Write(c, [Array(0)]))
    ensures GetRange(c, cmd, s, env).Served?
    ensures GetRange(c, cmd, s, env).conn.out == c.out + [Array(0)] ||
            exists err :: GetRange(c, cmd, s, env).conn.out == c.out + [Error(err)]
    ensures GetRangeAsWritten(c, cmd, s, env).Panicked? <==> |env.scan| > 0
  {
    if |env.scan| == 0 {
      assert !SliceFails(s.prefix, env.scan);
      assert Collect(s.prefix, env.scan) == Pairs([]);
      assert PairsReply([]) == [Array(0)];
    } else {
      assert |KeyOf(env.scan[0])| < |s.prefix| + 2;
      var col := Collect(s.prefix, env.scan);
      assert col.ScanFailed?;
      assert GetRange(c, cmd, s, env).conn.out == c.out + [Error(col.err)];
    }
  }

  /** Inside one transaction, `get_range` after `clear_range` of the same bounds finds
      nothing. Without iterator errors the scan is empty and the reply is the empty
      array; an iterator error is replied once corrected and panics as written. */
  lemma ClearRangeThenGetRange(h: Handler, code: Code, c: Conn, b: Bytes, e: Bytes, verb1: Bytes, verb2: Bytes,
                               env1: Env, env2: Env)
    requires Chrooted(c) && c.ctx.transaction.Some?
    requires var r1 := Exec(h, code, Wrapped(ClearRangeCb), c, [verb1, b, e], env1);
             var p := c.ctx.directory.value.prefix;
             r1.Served? && ScanMatches(r1.conn.ctx.transaction.value.view, Pack(p, b), Pack(p, e), env2.scan)
    ensures var r1 := Exec(h, code, Wrapped(ClearRangeCb), c, [verb1, b, e], env1);
            var r2 := Exec(h, code, Wrapped(GetRangeCb), r1.conn, [verb2, b, e], env2);
            && ((forall i :: 0 <= i < |env2.scan| ==> env2.scan[i].Item?) ==>
                  env2.scan == [] && r2 == Served(Write(r1.conn, [Array(0)])))
            && (code.Corrected? ==>
                  && r2.Served?
                  && (r2.conn.out == r1.conn.out + [Array(0)] || (exists err :: r2.conn.out == r1.conn.out + [Error(err)])))
            && (code.AsWritten? ==> (r2.Panicked? <==> exists i :: 0 <= i < |env2.scan| && env2.scan[i].ItemError?))
  {
    var s := c.ctx.directory.value;
    var r1 := Exec(h, code, Wrapped(ClearRangeCb), c, [verb1, b, e], env1);
    ClearRangeEmptiesRange(h, code, c, [verb1, b, e], env1);
    var view := r1.conn.ctx.transaction.value.view;
    assert forall k :: k in view ==> !InRange(k, Pack(s.prefix, b), Pack(s.prefix, e));
    assert forall i :: 0 <= i < |env2.scan| ==> env2.scan[i].ItemError?;
    var cmd2 := [verb2, b, e];
    ExecGetRange(h, code, r1.conn, cmd2, env2);
    ScanOfErrorsOnly(r1.conn, cmd2, s, env2);
  }

  /** `clear_range` on a bound connection with an open transaction keeps the binding
      and leaves no key of the packed range in the view. */
  lemma ClearRangeEmptiesRange(h: Handler, code: Code, c: Conn, cmd: seq<Bytes>, env: Env)
    requires Chrooted(c) && c.ctx.transaction.Some? && |cmd| == 3
    ensures var r := Exec(h, code, Wrapped(ClearRangeCb), c, cmd, env);
            var p := c.ctx.directory.value.prefix;
            && r.Served? && r.conn.ctx.directory == c.ctx.directory && r.conn.ctx.transaction.Some?
            && forall k :: k in r.conn.ctx.transaction.value.view ==> !InRange(k, Pack(p, cmd[1]), Pack(p, cmd[2]))
  {
    var r := Exec(h, code, Wrapped(ClearRangeCb), c, cmd, env);
    assert r == Served(ClearRange(c, cmd, c.ctx.transaction.value, c.ctx.directory.value));
  }

  /** On a bound connection with an open transaction, the `get_range` route runs
      `get_range` as written or corrected, on the bound directory. */
  lemma ExecGetRange(h: Handler, code: Code, c: Conn, cmd: seq<Bytes>, env: Env)
    requires Chrooted(c) && c.ctx.transaction.Some? && |cmd| > 0
    ensures Exec(h, code, Wrapped(GetRangeCb), c, cmd, env) ==
            if code.AsWritten? then GetRangeAsWritten(c, cmd, c.ctx.directory.value, env)
            else GetRange(c, cmd, c.ctx.directory.value, env)
  {
  }

  /** An iterator that fails on its first item crashes the as-written `get_range`,
      where the corrected one replies the error. */
  lemma IteratorErrorPanics(c: Conn, cmd: seq<Bytes>, s: Subspace, env: Env, err: string)
    requires |cmd| == 3 && env.scan == [ItemError(err)]
    ensures GetRangeAsWritten(c, cmd, s, env) == Panicked(SliceBoundsPanic)
    ensures GetRange(c, cmd, s, env) == Served(Write(c, [Error(err)]))
  {
    assert |KeyOf(env.scan[0])| < |s.prefix| + 2;
  }

  /** Keys the store returns for a range scan come back as the application keys they
      were packed from, bit for bit, in iterator order. */
  lemma CollectDecodesPackedKeys(p: Bytes, scan: seq<ScanItem>, keys: seq<Bytes>)
    requires |keys| == |scan|
    requires forall i :: 0 <= i < |scan| ==> scan[i].Item? && scan[i].key == Pack(p, keys[i])
    ensures Collect(p, scan).Pairs?
    ensures forall i :: 0 <= i < |scan| ==> Collect(p, scan).kvs[i] == KeyValue(keys[i], scan[i].value)
  {
    forall i | 0 <= i < |scan| ensures |p| + 2 <= |scan[i].key| && DecodeKey(p, scan[i].key) == keys[i] {
      DecodePack(p, keys[i]);
    }
  }

  /** When the store keeps its promise for `[Pack(p, b), Pack(p, e))`, the application
      keys of the items lie in `[b, e)` and strictly ascend. */
  lemma ScanKeysInApplicationRange(p: Bytes, b: Bytes, e: Bytes, scan: seq<ScanItem>, keys: seq<Bytes>)
    requires |keys| == |scan|
    requires forall i :: 0 <= i < |scan| ==> scan[i].Item? && scan[i].key == Pack(p, keys[i])
    requires forall i :: 0 <= i < |scan| ==> InRange(scan[i].key, Pack(p, b), Pack(p, e))
    requires forall i, j :: 0 <= i < j < |scan| ==> LexLt(scan[i].key, scan[j].key)
    ensures forall i :: 0 <= i < |keys| ==> InRange(keys[i], b, e)
    ensures forall i, j :: 0 <= i < j < |keys| ==> LexLt(keys[i], keys[j])
  {
    forall i | 0 <= i < |keys| ensures InRange(keys[i], b, e) {
      PackOrder(p, keys[i], e);
      PackOrder(p, b, keys[i]);
      if Pack(p, b) == Pack(p, keys[i]) {
        DecodePack(p, b);
        DecodePack(p, keys[i]);
      }
    }
    forall i, j | 0 <= i < j < |keys| ensures LexLt(keys[i], keys[j]) {
      PackOrder(p, keys[i], keys[j]);
    }
  }

  /** A store that keeps its promise never makes the corrected `get_range` panic: the
      keys it returns are long enough to slice. As written, it panics exactly when the
      iterator reports an error. */
  lemma MatchingScanNeverPanics(c: Conn, cmd: seq<Bytes>, s: Subspace, env: Env, view: map<Bytes, Bytes>)
    requires |cmd| == 3
    requires ScanMatches(view, Pack(s.prefix, cmd[1]), Pack(s.prefix, cmd[2]), env.scan)
    ensures GetRange(c, cmd, s, env).Served?
    ensures GetRangeAsWritten(c, cmd, s, env).Served? <==> forall i :: 0 <= i < |env.scan| ==> env.scan[i].Item?
  {
    forall i | 0 <= i < |env.scan| && env.scan[i].Item? ensures |s.prefix| + 2 <= |env.scan[i].key| {
      RangeKeyInBounds(s.prefix, cmd[1], cmd[2], env.scan[i].key);
    }
  }
}

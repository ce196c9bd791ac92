/** `Serve`: the verb table the server registers, and one connection driven command
    by command through the multiplexer. */
module Gateway {
  import opened Wrappers
  import opened Bytes
  import opened Resp
  import opened Session
  import opened RespMux
  import opened Handlers

  /** A method value such as `handler.begin`: the route, bound to its receiver. */
  datatype Bound = Bound(receiver: Handler, route: Route)

  /** The `HandleFunc` calls of `Serve`, in order, each registering a method of `h`. */
  function Registrations(h: Handler): seq<(string, Bound)> {
    [ ("ping", Bound(h, PingRoute)),
      ("quit", Bound(h, QuitRoute)),
      ("chroot", Bound(h, ChrootRoute)),
      ("begin", Bound(h, BeginRoute)),
      ("cancel", Bound(h, Wrapped(CancelCb))),
      ("commit", Bound(h, Wrapped(CommitCb))),
      ("get", Bound(h, Wrapped(GetCb))),
      ("get_range", Bound(h, Wrapped(GetRangeCb))),
      ("set", Bound(h, Wrapped(SetCb))),
      ("clear", Bound(h, Wrapped(ClearCb))),
      ("clear_range", Bound(h, Wrapped(ClearRangeCb))) ]
  }

  /** Registers each pair in turn, stopping at the first panic. */
  function RegisterAll(m: Mux<Bound>, regs: seq<(string, Bound)>): Result<Mux<Bound>>
    decreases |regs|
  {
    if |regs| == 0 then Ok(m)
    else match HandleFunc(m, regs[0].0, Some(regs[0].1))
      case Err(e) => Err(e)
      case Ok(m1) => RegisterAll(m1, regs[1..])
  }

  /** The table `Serve` builds before listening, for the handler `h`. */
  function Serve(h: Handler): Result<Mux<Bound>> {
    RegisterAll(NewRESPMux(), Registrations(h))
  }

  /** Registering non-empty verbs that are new and pairwise distinct never panics, and
      adds exactly those verbs with their handlers to the table. */
  lemma {:induction false} RegisterAllFresh(m: Mux<Bound>, regs: seq<(string, Bound)>)
    requires forall i :: 0 <= i < |regs| ==> regs[i].0 != "" && regs[i].0 !in m.handlers
    requires forall i, j :: 0 <= i < j < |regs| ==> regs[i].0 != regs[j].0
    ensures RegisterAll(m, regs).Ok?
    ensures forall v :: v in RegisterAll(m, regs).value.handlers <==>
              v in m.handlers || exists i :: 0 <= i < |regs| && regs[i].0 == v
    ensures forall i :: 0 <= i < |regs| ==> RegisterAll(m, regs).value.handlers[regs[i].0] == regs[i].1
    ensures forall v :: v in m.handlers ==> RegisterAll(m, regs).value.handlers[v] == m.handlers[v]
    decreases |regs|
  {
    if |regs| > 0 {
      var m1 := HandleFunc(m, regs[0].0, Some(regs[0].1)).value;
      assert forall i :: 1 <= i < |regs| ==> regs[1..][i - 1] == regs[i];
      RegisterAllFresh(m1, regs[1..]);
      var r := RegisterAll(m1, regs[1..]).value;
      forall v ensures v in r.handlers <==> v in m.handlers || exists i :: 0 <= i < |regs| && regs[i].0 == v {
        if exists i :: 0 <= i < |regs| && regs[i].0 == v {
          var i :| 0 <= i < |regs| && regs[i].0 == v;
          if i > 0 {
            assert regs[1..][i - 1].0 == v;
          }
        }
        if exists i :: 0 <= i < |regs[1..]| && regs[1..][i].0 == v {
          var i :| 0 <= i < |regs[1..]| && regs[1..][i].0 == v;
          assert regs[i + 1].0 == v;
        }
      }
    }
  }

  /** The verbs `Serve` registers. */
  const Verbs: set<string> := {"ping", "quit", "chroot", "begin", "cancel", "commit",
                               "get", "get_range", "set", "clear", "clear_range"}

  /** The verbs whose handlers go through `wrap`. */
  const WrappedVerbs: set<string> := {"cancel", "commit", "get", "get_range", "set", "clear", "clear_range"}

  /** The verbs of `Registrations` are pairwise distinct, and each is non-empty and
      lower-case; the wrapped ones are exactly `WrappedVerbs`. */
  lemma RegistrationsWellFormed(h: Handler)
    ensures |Registrations(h)| == 11
    ensures forall i, j :: 0 <= i < j < 11 ==> Registrations(h)[i].0 != Registrations(h)[j].0
    ensures forall i :: 0 <= i < 11 ==> Registrations(h)[i].0 != "" && IsLower(Registrations(h)[i].0)
    ensures forall i :: 0 <= i < 11 ==> Registrations(h)[i].1.receiver == h
    ensures forall i :: 0 <= i < 11 ==> (Registrations(h)[i].1.route.Wrapped? <==> Registrations(h)[i].0 in WrappedVerbs)
    ensures forall i :: 0 <= i < 11 ==> (Registrations(h)[i].1.route == BeginRoute <==> Registrations(h)[i].0 == "begin")
  {
  }

  /** `Verbs` lists exactly the registered names. */
  lemma VerbsAreRegistered(h: Handler)
    ensures Verbs == set i | 0 <= i < 11 :: Registrations(h)[i].0
  {
    var regs := Registrations(h);
    forall v | v in Verbs ensures exists i :: 0 <= i < 11 && regs[i].0 == v {
      if v == "ping" { assert regs[0].0 == v; }
      else if v == "quit" { assert regs[1].0 == v; }
      else if v == "chroot" { assert regs[2].0 == v; }
      else if v == "begin" { assert regs[3].0 == v; }
      else if v == "cancel" { assert regs[4].0 == v; }
      else if v == "commit" { assert regs[5].0 == v; }
      else if v == "get" { assert regs[6].0 == v; }
      else if v == "get_range" { assert regs[7].0 == v; }
      else if v == "set" { assert regs[8].0 == v; }
      else if v == "clear" { assert regs[9].0 == v; }
      else { assert regs[10].0 == v; }
    }
  }

  /** Registering distinct non-empty verbs into an empty table yields exactly those
      verbs, each bound to the handler registered for it. */
  lemma TableOf(m: Mux<Bound>, regs: seq<(string, Bound)>)
    requires m.handlers == map[]
    requires forall i :: 0 <= i < |regs| ==> regs[i].0 != ""
    requires forall i, j :: 0 <= i < j < |regs| ==> regs[i].0 != regs[j].0
    ensures RegisterAll(m, regs).Ok?
    ensures RegisterAll(m, regs).value.handlers.Keys == set i | 0 <= i < |regs| :: regs[i].0
    ensures forall i :: 0 <= i < |regs| ==> RegisterAll(m, regs).value.handlers[regs[i].0] == regs[i].1
  {
    RegisterAllFresh(m, regs);
  }

  /** `Serve` registers its eleven verbs without a panic; each is non-empty and
      lower-case, hence reachable, each handler is a method of `h`, and exactly the
      data and lifecycle verbs other than `begin` are wrapped. */
  lemma ServeTable(h: Handler)
    ensures Serve(h).Ok?
    ensures Serve(h).value.handlers.Keys == Verbs
    ensures |Verbs| == 11
    ensures forall i :: 0 <= i < 11 ==> Serve(h).value.handlers[Registrations(h)[i].0] == Registrations(h)[i].1
  {
    var regs := Registrations(h);
    RegistrationsWellFormed(h);
    VerbsAreRegistered(h);
    TableOf(NewRESPMux(), regs);
    DistinctNamesCount(regs);
  }

  /** Every registered verb is non-empty and lower-case, hence reachable; its handler
      is a method of `h`; it goes through `wrap` exactly when it is a data or
      lifecycle verb other than `begin`; and only `begin` runs `begin`. */
  lemma ServeRoutes(h: Handler)
    ensures Serve(h).Ok? && Serve(h).value.handlers.Keys == Verbs
    ensures forall v :: v in Verbs ==> v != "" && IsLower(v)
    ensures forall v :: v in Verbs ==> Serve(h).value.handlers[v].receiver == h
    ensures forall v :: v in Verbs ==> (Serve(h).value.handlers[v].route.Wrapped? <==> v in WrappedVerbs)
    ensures forall v :: v in Verbs ==> (Serve(h).value.handlers[v].route == BeginRoute <==> v == "begin")
  {
    ServeTable(h);
    RegistrationsWellFormed(h);
    VerbsAreRegistered(h);
    var regs := Registrations(h);
    var t := Serve(h).value.handlers;
    forall v | v in Verbs
      ensures v != "" && IsLower(v) && t[v].receiver == h && (t[v].route.Wrapped? <==> v in WrappedVerbs)
      ensures t[v].route == BeginRoute <==> v == "begin"
    {
      var i :| 0 <= i < 11 && regs[i].0 == v;
    }
  }

  /** Distinct names in a list of `n` registrations form a set of `n` names. */
  lemma {:induction false} DistinctNamesCount<K, B>(regs: seq<(K, B)>)
    requires forall i, j :: 0 <= i < j < |regs| ==> regs[i].0 != regs[j].0
    ensures |set i | 0 <= i < |regs| :: regs[i].0| == |regs|
    decreases |regs|
  {
    if |regs| > 0 {
      var rest := regs[1..];
      assert forall i, j :: 0 <= i < j < |rest| ==> rest[i].0 != rest[j].0 by {
        assert forall i :: 0 <= i < |rest| ==> rest[i] == regs[i + 1];
      }
      DistinctNamesCount(rest);
      var all := set i | 0 <= i < |regs| :: regs[i].0;
      var tail := set i | 0 <= i < |rest| :: rest[i].0;
      assert all == {regs[0].0} + tail by {
        forall v | v in all ensures v in {regs[0].0} + tail {
          var i :| 0 <= i < |regs| && regs[i].0 == v;
          if i > 0 {
            assert rest[i - 1].0 == v;
          }
        }
        forall v | v in tail ensures v in all {
          var i :| 0 <= i < |rest| && rest[i].0 == v;
          assert regs[i + 1].0 == v;
        }
      }
      assert regs[0].0 !in tail by {
        forall i | 0 <= i < |rest| ensures rest[i].0 != regs[0].0 {
          assert rest[i] == regs[i + 1];
        }
      }
    }
  }

  /** The registered table, given that `Serve` does not panic. */
  function Table(h: Handler): (m: Mux<Bound>)
    ensures m.handlers.Keys == Verbs
  {
    ServeTable(h);
    Serve(h).value
  }

  /** One command on a connection: dispatch through the table, then run the method
      found on its receiver, or write the unknown-command error. */
  function Step(h: Handler, code: Code, c: Conn, cmd: seq<Bytes>, env: Env): (r: Outcome)
    requires |cmd| > 0
    ensures r.Served? ==> r.conn.ctx.id == c.ctx.id && c.out <= r.conn.out
  {
    match ServeRESP(Table(h), cmd)
    case Unknown(reply) => Served(Write(c, [reply]))
    case Invoke(_, bound, args) => Exec(bound.receiver, code, bound.route, c, args, env)
  }

  /** Every registered verb is reached, whatever its case in the command, and runs
      the handler registered for it on the command as given. */
  lemma EveryVerbReachable(h: Handler, code: Code, c: Conn, cmd: seq<Bytes>, env: Env)
    requires |cmd| > 0
    ensures ServeRESP(Table(h), cmd).Invoke? <==> VerbOf(cmd) in Verbs
    ensures forall i :: 0 <= i < 11 && VerbOf(cmd) == Registrations(h)[i].0 ==>
              Step(h, code, c, cmd, env) == Exec(h, code, Registrations(h)[i].1.route, c, cmd, env)
  {
    DispatchesRegistered(h, cmd);
  }

  /** The table dispatches exactly the registered verbs, each to the entry registered
      under it, with the command as given. */
  lemma DispatchesRegistered(h: Handler, cmd: seq<Bytes>)
    requires |cmd| > 0
    ensures ServeRESP(Table(h), cmd).Invoke? <==> VerbOf(cmd) in Verbs
    ensures forall i :: 0 <= i < 11 && VerbOf(cmd) == Registrations(h)[i].0 ==>
              ServeRESP(Table(h), cmd) == Invoke(VerbOf(cmd), Registrations(h)[i].1, cmd)
  {
    ServeTable(h);
    RegistrationsWellFormed(h);
  }

  /** An unregistered verb is answered with the one unknown-command error and changes
      nothing else. */
  lemma UnknownVerbChangesNothing(h: Handler, code: Code, c: Conn, cmd: seq<Bytes>, env: Env)
    requires |cmd| > 0 && VerbOf(cmd) !in Verbs
    ensures Step(h, code, c, cmd, env) == Served(Write(c, [Error("ERR unknown command '" + VerbOf(cmd) + "'")]))
  {
  }

  /** The route a lower-case verb dispatches to. */
  lemma RouteOf(h: Handler, cmd: seq<Bytes>)
    requires |cmd| > 0 && VerbOf(cmd) in Verbs
    ensures ServeRESP(Table(h), cmd).Invoke?
    ensures ServeRESP(Table(h), cmd).handler.receiver == h
    ensures ServeRESP(Table(h), cmd).handler.route.Wrapped? <==> VerbOf(cmd) in WrappedVerbs
    ensures ServeRESP(Table(h), cmd).handler.route == BeginRoute <==> VerbOf(cmd) == "begin"
  {
    ServeRoutes(h);
  }

  /** Before a directory is bound, every wrapped command is refused with the chroot
      error and changes nothing else. */
  lemma DataCommandsNeedChroot(h: Handler, code: Code, c: Conn, cmd: seq<Bytes>, env: Env)
    requires |cmd| > 0 && !Chrooted(c)
    requires VerbOf(cmd) in WrappedVerbs
    ensures Step(h, code, c, cmd, env) == Served(Write(c, [Error(ChrootError)]))
  {
    RouteOf(h, cmd);
  }

  /** With a directory bound but no transaction open, every wrapped command is refused
      with the no-transaction error and changes nothing else. */
  lemma DataCommandsNeedTransaction(h: Handler, code: Code, c: Conn, cmd: seq<Bytes>, env: Env)
    requires |cmd| > 0 && Chrooted(c) && c.ctx.transaction.None?
    requires VerbOf(cmd) in WrappedVerbs
    ensures Step(h, code, c, cmd, env) == Served(Write(c, [Error(NoTransactionError)]))
  {
    RouteOf(h, cmd);
  }

  /** `begin` over an open transaction is refused and leaves that transaction as it was. */
  lemma BeginKeepsOpenTransaction(h: Handler, code: Code, c: Conn, cmd: seq<Bytes>, env: Env)
    requires |cmd| > 0 && Chrooted(c) && c.ctx.transaction.Some?
    requires VerbOf(cmd) == "begin"
    ensures Step(h, code, c, cmd, env) == Served(Write(c, [Error(TransactionOpenError)]))
  {
    RouteOf(h, cmd);
  }

  // ---------------------------------------------------------------------------
  // The reachable-state invariant

  /** An open transaction implies a bound directory. */
  predicate Inv(ctx: ConnCtx) {
    ctx.transaction.Some? ==> ctx.directory.Some?
  }

  /** Every handler keeps the invariant, never unbinds the directory, and opens a
      transaction only through `begin`. */
  lemma ExecKeepsInv(h: Handler, code: Code, route: Route, c: Conn, cmd: seq<Bytes>, env: Env)
    requires |cmd| > 0
    ensures var r := Exec(h, code, route, c, cmd, env);
            && (r.Served? && Inv(c.ctx) ==> Inv(r.conn.ctx))
            && (r.Served? && c.ctx.directory.Some? ==> r.conn.ctx.directory.Some?)
            && (r.Served? && c.ctx.transaction.None? && r.conn.ctx.transaction.Some? ==> route == BeginRoute)
  {
  }

  /** One step keeps the invariant, keeps a bound directory bound, and opens a
      transaction only for the verb `begin`. */
  lemma StepKeepsInv(h: Handler, code: Code, c: Conn, cmd: seq<Bytes>, env: Env)
    requires |cmd| > 0
    ensures var r := Step(h, code, c, cmd, env);
            && (r.Served? && Inv(c.ctx) ==> Inv(r.conn.ctx))
            && (r.Served? && c.ctx.directory.Some? ==> r.conn.ctx.directory.Some?)
            && (r.Served? && c.ctx.transaction.None? && r.conn.ctx.transaction.Some? ==> VerbOf(cmd) == "begin")
  {
    match ServeRESP(Table(h), cmd)
    case Unknown(_) =>
    case Invoke(_, bound, args) =>
      RouteOf(h, cmd);
      ExecKeepsInv(bound.receiver, code, bound.route, c, args, env);
  }

  /** One command of a session, with the store's answers to it. */
  datatype Request = Request(cmd: seq<Bytes>, env: Env)

  predicate WellFormed(reqs: seq<Request>) {
    forall i :: 0 <= i < |reqs| ==> |reqs[i].cmd| > 0
  }

  /** A session: commands served in order until one panics or the connection closes. */
  function Run(h: Handler, code: Code, c: Conn, reqs: seq<Request>): (r: Outcome)
    requires WellFormed(reqs)
    ensures r.Served? ==> r.conn.ctx.id == c.ctx.id && c.out <= r.conn.out
    decreases |reqs|
  {
    if |reqs| == 0 || c.closed then Served(c)
    else match Step(h, code, c, reqs[0].cmd, reqs[0].env)
      case Panicked(reason) => Panicked(reason)
      case Served(c1) => Run(h, code, c1, reqs[1..])
  }

  /** The state a connection starts in after `Accept`. */
  function Fresh(s: Server): (c: Conn)
    requires IsInt64(s.idCounter)
  {
    Conn(Accept(s).ctx, [], false)
  }

  /** Any session keeps the invariant and never unbinds a directory. */
  lemma {:induction false} RunKeepsInv(h: Handler, code: Code, c: Conn, reqs: seq<Request>)
    requires WellFormed(reqs) && Inv(c.ctx)
    ensures Run(h, code, c, reqs).Served? ==> Inv(Run(h, code, c, reqs).conn.ctx)
    ensures Run(h, code, c, reqs).Served? && c.ctx.directory.Some? ==> Run(h, code, c, reqs).conn.ctx.directory.Some?
    decreases |reqs|
  {
    if |reqs| > 0 && !c.closed {
      StepKeepsInv(h, code, c, reqs[0].cmd, reqs[0].env);
      match Step(h, code, c, reqs[0].cmd, reqs[0].env)
      case Panicked(_) =>
      case Served(c1) =>
        assert WellFormed(reqs[1..]) by {
          assert forall i :: 0 <= i < |reqs| - 1 ==> reqs[1..][i] == reqs[i + 1];
        }
        RunKeepsInv(h, code, c1, reqs[1..]);
    }
  }

  /** From the state `Accept` creates, every session ends with "a transaction is open
      only if a directory is bound". */
  lemma ReachableStatesKeepInv(h: Handler, code: Code, s: Server, reqs: seq<Request>)
    requires IsInt64(s.idCounter) && WellFormed(reqs)
    ensures Run(h, code, Fresh(s), reqs).Served? ==> Inv(Run(h, code, Fresh(s), reqs).conn.ctx)
  {
    RunKeepsInv(h, code, Fresh(s), reqs);
  }
}

/** `RESPMux`: a registration table from command verbs to handlers, consulted with
    the lower-cased first word of every incoming command. Registration failures are
    Go panics; here they are `Err` results carrying the panic message. */
module RespMux {
  import opened Wrappers
  import opened Bytes
  import opened Resp

  /** The handler table; `H` stands for whatever a handler is. */
  datatype Mux<H> = Mux(handlers: map<string, H>)

  /** `NewRESPMux`: an empty table. */
  function NewRESPMux<H>(): Mux<H> {
    Mux(map[])
  }

  /** `Handle`: registers `handler` (None is a nil handler) under `command`, exactly
      as given. It panics on an empty command, then on a nil handler, then on a
      command that is already registered; otherwise it adds that one entry. */
  function Handle<H>(m: Mux<H>, command: string, handler: Option<H>): (r: Result<Mux<H>>)
    ensures command == "" ==> r == Err("redcon: invalid command")
    ensures command != "" && handler.None? ==> r == Err("redcon: nil handler")
    ensures command != "" && handler.Some? && command in m.handlers ==>
              r == Err("redcon: multiple registrations for " + command)
    ensures r.Ok? <==> command != "" && handler.Some? && command !in m.handlers
    ensures r.Ok? ==> r.value.handlers.Keys == m.handlers.Keys + {command}
    ensures r.Ok? ==> r.value.handlers[command] == handler.value
    ensures r.Ok? ==> forall c :: c in m.handlers ==> r.value.handlers[c] == m.handlers[c]
  {
    if command == "" then Err("redcon: invalid command")
    else if handler.None? then Err("redcon: nil handler")
    else if command in m.handlers then Err("redcon: multiple registrations for " + command)
    else Ok(Mux(m.handlers[command := handler.value]))
  }

  /** `HandleFunc`: panics on a nil handler before looking at the command, and
      otherwise registers it through `Handle`. */
  function HandleFunc<H>(m: Mux<H>, command: string, handler: Option<H>): (r: Result<Mux<H>>)
    ensures handler.None? ==> r == Err("redcon: nil handler")
    ensures handler.Some? ==> r == Handle(m, command, handler)
  {
    if handler.None? then Err("redcon: nil handler") else Handle(m, command, handler)
  }

  /** What `ServeRESP` does with one command: invoke the handler registered under
      `verb`, passing the command on, or write one reply and invoke nothing. */
  datatype Dispatch<H> = Invoke(verb: string, handler: H, cmd: seq<Bytes>) | Unknown(reply: Event)

  /** The table key a command is looked up under: its first word, lower-cased. */
  function VerbOf(cmd: seq<Bytes>): (v: string)
    requires |cmd| > 0
    ensures IsLower(v)
  {
    ToLowerFixesExactlyLower(AsString(cmd[0]));
    ToLower(AsString(cmd[0]))
  }

  /** `ServeRESP`: dispatches on the lower-cased verb. A registered verb invokes its
      handler with the command unmodified; an unregistered one yields exactly the
      error `ERR unknown command '<verb>'` naming the lower-cased verb. */
  function ServeRESP<H>(m: Mux<H>, cmd: seq<Bytes>): (d: Dispatch<H>)
    requires |cmd| > 0
    ensures d.Invoke? <==> VerbOf(cmd) in m.handlers
    ensures d.Invoke? ==> d.verb == VerbOf(cmd) && d.handler == m.handlers[d.verb] && d.cmd == cmd
    ensures d.Unknown? ==> d.reply == Error("ERR unknown command '" + VerbOf(cmd) + "'")
  {
    var verb := VerbOf(cmd);
    if verb in m.handlers then Invoke(verb, m.handlers[verb], cmd)
    else Unknown(Error("ERR unknown command '" + verb + "'"))
  }

  /** A fresh table knows no command: every dispatch reports an unknown command. */
  lemma NewMuxKnowsNothing<H>(cmd: seq<Bytes>)
    requires |cmd| > 0
    ensures ServeRESP(NewRESPMux<H>(), cmd).Unknown?
  {
  }

  /** Dispatch ignores case: two commands whose verbs agree up to ASCII case reach
      the same handler, or are both unknown. */
  lemma DispatchIgnoresCase<H>(m: Mux<H>, cmd1: seq<Bytes>, cmd2: seq<Bytes>)
    requires |cmd1| > 0 && |cmd2| > 0
    requires ToLower(AsString(cmd1[0])) == ToLower(AsString(cmd2[0]))
    ensures ServeRESP(m, cmd1).Invoke? == ServeRESP(m, cmd2).Invoke?
    ensures ServeRESP(m, cmd1).Invoke? ==> ServeRESP(m, cmd1).handler == ServeRESP(m, cmd2).handler
  {
  }

  /** Registration does not lower-case: a command registered with an upper-case
      letter is never the entry dispatch invokes, whatever the table and the command. */
  lemma UppercaseVerbUnreachable<H>(m: Mux<H>, command: string, cmd: seq<Bytes>)
    requires !IsLower(command)
    requires |cmd| > 0
    ensures ServeRESP(m, cmd).Invoke? ==> ServeRESP(m, cmd).verb != command
  {
  }

  /** Registering an upper-case command succeeds, yet leaves it unreachable. */
  lemma UppercaseRegistrationIsDead<H>(handler: H, cmd: seq<Bytes>)
    requires |cmd| > 0
    ensures Handle(NewRESPMux<H>(), "PING", Some(handler)).Ok?
    ensures ServeRESP(Handle(NewRESPMux<H>(), "PING", Some(handler)).value, cmd).Unknown?
  {
    var m := Handle(NewRESPMux<H>(), "PING", Some(handler)).value;
    assert m.handlers.Keys == {"PING"};
    assert !IsLower("PING") by { assert IsUpper("PING"[0]); }
  }
}

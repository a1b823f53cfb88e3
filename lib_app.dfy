/**
 * The `lib` application: the registration shortcuts, the optional logger
 * `run` reports responses to, and the localhost check.
 */
module LibApp {
  import opened Wrappers
  import opened Payload
  import opened Shortcuts
  import LibResponse

  /** A logger: the level it was given and the responses it has been handed, in order. */
  class Logger {
    const level: int
    var logged: seq<LibResponse.Response>

    constructor(level: int)
      ensures this.level == level && logged == []
    {
      this.level := level;
      logged := [];
    }

    /** `log`: the response is recorded after the earlier ones. */
    method Log(response: LibResponse.Response)
      modifies this
      ensures logged == old(logged) + [response]
    {
      logged := logged + [response];
    }
  }

  /** One call of the router's `map`: the methods, the declaration and the handler. */
  datatype Registration = Registration(verbs: seq<string>, decl: string, action: Handler)

  /** Whether `run` hands a response with code `code` to the logger. */
  predicate Logs(logger: Option<Logger>, code: int)
    reads if logger.Some? then {logger.value} else {}
  {
    logger.Some? && logger.value.level <= code
  }

  class App {
    /** The logger, `null` until `setLogger`. */
    var logger: Option<Logger>
    /** The calls made on the router's `map`, in order. */
    var registrations: seq<Registration>

    /** The constructor: no logger and nothing registered. */
    constructor()
      ensures logger == None && registrations == []
    {
      logger := None;
      registrations := [];
    }

    /** `setLogger`: the logger is installed; nothing else changes. */
    method SetLogger(l: Logger)
      modifies this
      ensures logger == Some(l) && registrations == old(registrations)
    {
      logger := Some(l);
    }

    /** `map`: one call of the router's `map` with exactly these arguments. */
    method Map(verbs: seq<string>, decl: string, action: Handler)
      modifies this
      ensures registrations == old(registrations) + [Registration(verbs, decl, action)]
      ensures logger == old(logger)
    {
      registrations := registrations + [Registration(verbs, decl, action)];
    }

    /** `get`, `post`, `put`, `patch`, `delete`, `options` and `any`: `map` with the shortcut's methods. */
    method Register(s: Shortcut, decl: string, action: Handler)
      modifies this
      ensures registrations == old(registrations) + [Registration(ShortcutMethods(s), decl, action)]
      ensures logger == old(logger)
    {
      Map(ShortcutMethods(s), decl, action);
    }

    /**
     * `run`, given the router's response: it goes to the logger exactly when
     * one is set and its level is at most the response code.
     */
    method Run(response: LibResponse.Response)
      modifies if logger.Some? then {logger.value} else {}
      ensures Logs(logger, response.code) ==> logger.value.logged == old(logger.value.logged) + [response]
      ensures logger.Some? && !Logs(logger, response.code) ==> logger.value.logged == old(logger.value.logged)
    {
      if logger.Some? && logger.value.level <= response.code {
        logger.value.Log(response);
      }
    }
  }

  /** The addresses `isLocalhost` accepts. */
  const Whitelist: seq<string> := ["127.0.0.1", "::1"]

  /**
   * `isLocalhost`: whether the remote address is in the whitelist. The loose
   * comparison of `in_array` is string equality here, since neither entry is
   * a numeric string.
   */
  function IsLocalhost(addr: string): (b: bool)
    ensures b <==> addr == "127.0.0.1" || addr == "::1"
  {
    addr in Whitelist
  }

  /** Without a logger, `run` logs nothing, whatever the code. */
  lemma NoLoggerNoLog(code: int)
    ensures !Logs(None, code)
  {
  }
}

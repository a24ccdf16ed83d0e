/** The host e-commerce framework, as far as the core talks to it: the
    requests it receives (one trace of calls, in order), its configuration
    table, and the current admin controller's notice lists. The framework's
    own behaviour is not modelled; where the core reads one of its answers,
    the answer is a parameter of the operation. */
module Framework {
  import opened Php

  /** The database connection object the framework hands out. */
  datatype Handle = Handle(id: nat)

  /** One call from the core into the framework. */
  datatype Event =
    | ConfigUpdate(name: string, value: Value, html: bool)  // Configuration::updateValue
    | ConfigDelete(name: string)                             // Configuration::deleteByName
    | BaseInstall                                            // parent::install()
    | BaseUninstall                                          // parent::uninstall()
    | RegisterHook(hook: string)                             // registerHook
    | Execute(handle: Handle, sql: string)                   // PsDb::execute
    | DeleteRows(handle: Handle, table: string, where: Value)
    | UpdateRows(handle: Handle, table: string, data: Entries, where: Value)

  /** The controller's `errors`, `confirmations` and `warnings` lists. */
  datatype Notices = Notices(errors: seq<Value>, confirmations: seq<Value>, warnings: seq<Value>)

  class Host {
    var trace: seq<Event>
    var config: map<string, Value>
    var notices: Notices

    constructor ()
      ensures trace == [] && config == map[] && notices == Notices([], [], [])
    {
      trace := [];
      config := map[];
      notices := Notices([], [], []);
    }
  }
}

/** The client of the rewrite in progress
    (`collegamento.simple_client_server.new_impl.Client`). Its `request`
    stops after allocating the id: building and queueing the message is
    still commented out, so nothing reaches the worker and no id is ever
    released. `current_ids` and `newest_responses` are set up empty and
    never written. */
module DraftCorrelation {
  import opened Messages
  import LedgerSpec

  class DraftClient {
    var allIds: seq<int>
    const idMax: int
    var currentIds: map<string, int>
    var newestResponses: map<string, seq<Response>>
    var commands: map<string, Entry>

    ghost predicate Valid()
      reads this
    {
      NoRepeats(allIds) && LedgerSpec.InRange(allIds, idMax)
    }

    /** `Client.__init__`: a bare handler becomes a single-request entry, a
        pair is kept as given, one command at a time (starting the worker is
        left out). */
    constructor (specs: map<string, CommandSpec>, idMax: int)
      ensures Valid() && this.idMax == idMax
      ensures allIds == [] && currentIds == map[] && newestResponses == map[]
      ensures commands.Keys == specs.Keys
      ensures forall c :: c in specs && specs[c].Bare? ==> commands[c] == Entry(specs[c].fn, false)
      ensures forall c :: c in specs && specs[c].Pair? ==> commands[c] == specs[c].entry
    {
      allIds := [];
      this.idMax := idMax;
      currentIds := map[];
      newestResponses := map[];
      var table: map<string, Entry> := map[];
      var rest := specs.Keys;
      while rest != {}
        invariant rest <= specs.Keys
        invariant table.Keys == specs.Keys - rest
        invariant forall c :: c in table ==> table[c] == Normalise(specs[c])
        decreases |rest|
      {
        var c :| c in rest;
        table := table[c := Normalise(specs[c])];
        rest := rest - {c};
      }
      commands := table;
    }

    /** `create_message_id`: a free id in `[1, id_max]`, recorded as
        outstanding. The random draw repeated until it misses `all_ids` is a
        choice among the free ids; `LedgerSpec.FreeIdIff` shows the
        requirement is exactly what lets the draw stop. */
    method CreateMessageId() returns (id: int)
      requires Valid() && |allIds| < idMax
      modifies this`allIds
      ensures 1 <= id <= idMax && id !in old(allIds)
      ensures allIds == old(allIds) + [id]
      ensures Valid()
    {
      LedgerSpec.FreeIdExists(allIds, idMax);
      id :| 1 <= id <= idMax && id !in allIds;
      LedgerSpec.AppendFresh(allIds, idMax, id);
      allIds := allIds + [id];
    }

    /** `request(request_details)`: the map must carry a `command` key
        (KeyError otherwise); a list or dict there cannot be looked up
        (TypeError, unhashable); any other value that is not a registered
        name raises CollegamentoError. A known command only takes a fresh
        id: nothing is queued and the answer slots stay as they are. */
    method Request(details: map<string, Value>) returns (status: Status)
      requires Valid()
      requires "command" in details && details["command"].VStr? && details["command"].s in commands ==> |allIds| < idMax
      modifies this`allIds
      ensures Valid()
      ensures status.Pass? <==> "command" in details && details["command"].VStr? && details["command"].s in commands
      ensures "command" !in details ==> status == Fail(KeyError)
      ensures "command" in details && (details["command"].VList? || details["command"].VDict?) ==> status == Fail(TypeError)
      ensures status.Fail? ==> status.error in {KeyError, TypeError, CollegamentoError} && allIds == old(allIds)
      ensures status.Pass? ==>
        && |allIds| == |old(allIds)| + 1
        && var id := allIds[|old(allIds)|];
        && 1 <= id <= idMax && id !in old(allIds)
        && allIds == old(allIds) + [id]
    {
      if "command" !in details {
        return Fail(KeyError);
      }
      match details["command"]
      case VList(_) =>
        return Fail(TypeError);
      case VDict(_) =>
        return Fail(TypeError);
      case VStr(command) =>
        if command !in commands {
          return Fail(CollegamentoError);
        }
        var id := CreateMessageId();
        return Pass;
      case _ =>
        return Fail(CollegamentoError);
    }
  }
}

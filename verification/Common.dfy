/** Types shared by the models of the daemon, the controller and the client library. */
module Common {

  datatype Option<+T> = None | Some(value: T)

  /** The outcomes of `scord::error_code` that the modelled code can produce. */
  datatype ErrorCode =
    | Success
    | Snafu
    | BadArgs
    | OutOfMemory
    | EntityExists
    | NoSuchEntity
    | AdhocInUse
    | AdhocTypeUnsupported
    | AdhocDirCreateFailed
    | AdhocDirExists
    | SubprocessError
    | NoResources
    | Other

  /** `tl::expected<T, error_code>` */
  datatype Expected<+T> = Value(value: T) | Unexpected(error: ErrorCode)

  /** Identifiers come from 64-bit atomic counters, which wrap around. */
  const WORD: nat := 0x1_0000_0000_0000_0000

  /** The identifier handed out by the `ticket`-th `current_id++`, counting from zero. */
  function IdOf(ticket: nat): (id: nat)
    ensures id < WORD
    ensures ticket < WORD ==> id == ticket
  {
    ticket % WORD
  }

  /** The texts that are not empty. */
  function NonEmpty(texts: seq<string>): seq<string> {
    if texts == [] then [] else (if texts[0] == "" then [] else [texts[0]]) + NonEmpty(texts[1..])
  }
}

/** What the daemon and the controllers know an adhoc storage by. */
module AdhocStorageTypes {
  datatype AdhocType = GekkoFs | DataClay | Expand | Hercules

  /** `adhoc_storage::ctx`; the execution mode and the access type are carried as the numbers of their enumerators. */
  datatype Context = Context(controller: string, stager: string, mode: nat, access: nat, walltime: nat, shouldFlush: bool)

  /** What a storage is registered with, together with the uuid generated for it, and what never changes afterwards. */
  datatype Info = Info(name: string, adhocType: AdhocType, uuid: string, ctx: Context)

  const EXAMPLE := Info("", GekkoFs, "", Context("", "", 0, 0, 0, false))
}

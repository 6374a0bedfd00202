/** The service's error values. */
module Errors {
  /** The sentinel errors of the application. */
  datatype AppError = InvalidSubCommand | MissingArgument | ReportAlreadyImported | AlreadyInQueue {
    function Message(): string {
      match this
      case InvalidSubCommand => "invalid sub command"
      case MissingArgument => "one or more missing arguments"
      case ReportAlreadyImported => "report already imported"
      case AlreadyInQueue => "report is already in queue"
    }
  }

  /** The tables of the entity store. */
  datatype Table = EncounterInfos | Characters | CharacterProgressions | ImportHistories

  /** What a store operation can fail with: a lookup that finds no row,
      or a failure of the storage engine on one table. */
  datatype DbError = RecordNotFound | StorageFailure(table: Table)

  /** A failure of the report-fetching client. */
  datatype FetchError = FetchError(message: string)
}

/** The canonical fixture record shared by every stage of the pipeline
    (lib/types.ts), and the optional-value wrapper used for JavaScript's
    `null`/`undefined` fields and for operations that may fail. */
module Types {

  datatype Option<+T> = None | Some(value: T) {
    function GetOr(default: T): T {
      match this
      case Some(v) => v
      case None => default
    }
  }

  /** One fixture. `kickoff` holds the numeric JST wall-clock fields written
      with a trailing 'Z'; optional fields are None when the source leaves them
      out or sets them to null. */
  datatype Match = Match(
    id: string,
    apiMatchId: string,
    competition: string,
    competitionId: Option<string>,
    round: Option<string>,
    kickoff: string,
    homeTeam: string,
    awayTeam: string,
    homeTeamId: Option<string>,
    awayTeamId: Option<string>,
    hasJapanesePlayer: bool,
    status: Option<string>
  )
}

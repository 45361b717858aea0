/** A session transcript as the capture hook sees it: a sequence of turns. */
module Transcript {
  datatype Role = User | Assistant

  /** One human-readable turn. */
  datatype Turn = Turn(role: Role, text: string)
}

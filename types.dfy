/** The shared records of the application (types.ts), plus the Option and
    Result wrappers used where the TypeScript code has `null`, `undefined`
    or a thrown error. */
module Types {

  datatype Option<+T> = None | Some(value: T)

  /** A value, or the message of the error that replaced it. */
  datatype Result<+T, +E> = Success(value: T) | Failure(error: E)

  /** The five phases of one analysis run. */
  datatype AnalysisStatus = Idle | Uploading | Processing | Completed | Error

  /** What the parser extracts from the model's reply: up to three bullets
      and a free-text detailed summary. */
  datatype AnalysisResult = AnalysisResult(summary3Lines: seq<string>, detailedSummary: string)

  /** The status shown to the user together with its display message. */
  datatype ProcessingState = ProcessingState(status: AnalysisStatus, message: string)

  /** One encoded audio file: its base64 payload and its media type. */
  datatype AudioInput = AudioInput(base64: string, mimeType: string)

  datatype Role = User | Model

  /** A chat message; its id and timestamp are left abstract. */
  datatype ChatMessage = ChatMessage(role: Role, text: string)
}

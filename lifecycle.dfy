/** The analysis lifecycle of the application component (App.tsx): the
    selected files, the processing state, the last result and the chat
    session, changed by the file, reset and analyze handlers; plus the
    enabling rules the sidebar derives from that state
    (components/Sidebar.tsx). */
module Lifecycle {
  import opened Types
  import opened Text
  import opened Gemini

  /** A selected file: its name, media type and size in bytes; its
      contents are reached only through the encode outcome. */
  datatype AudioFile = AudioFile(name: string, mimeType: string, size: nat)

  const UnknownErrorMessage: string := "알 수 없는 오류가 발생했습니다."
  const ProcessingMessage: string := "Gemini AI가 모든 회의 내용을 통합 분석 중입니다..."
  const CompletedMessage: string := "분석 완료"

  /** The status line shown while the files are being encoded. */
  function UploadingMessage(count: nat): string {
    NatToString(count) + "개의 오디오 파일 준비 중..."
  }

  /** The uploading message names the file count: different counts give
      different messages, and the count's decimal form opens the message. */
  lemma UploadingMessageNamesCount(m: nat, n: nat)
    ensures NatToString(m) <= UploadingMessage(m)
    ensures UploadingMessage(m) == UploadingMessage(n) ==> m == n
  {
    if UploadingMessage(m) == UploadingMessage(n) {
      var suffix := "개의 오디오 파일 준비 중...";
      assert UploadingMessage(m)[..|UploadingMessage(m)| - |suffix|] == NatToString(m);
      assert UploadingMessage(n)[..|UploadingMessage(n)| - |suffix|] == NatToString(n);
      NatToStringInjective(m, n);
    }
  }

  /** `error.message || '...'`: an empty or missing message is replaced by
      the generic one. */
  function ShownMessage(message: Option<string>): (r: string)
    ensures |r| > 0
    ensures message.Some? && message.value != "" ==> r == message.value
    ensures message.None? || message.value == "" ==> r == UnknownErrorMessage
  {
    if message.Some? && message.value != "" then message.value else UnknownErrorMessage
  }

  /** `files.filter((_, index) => index !== i)`, element by element. */
  function WithoutIndex<T>(s: seq<T>, i: int): seq<T>
  {
    if |s| == 0 then []
    else WithoutIndex(s[..|s| - 1], i) + if |s| - 1 == i then [] else [s[|s| - 1]]
  }

  /** The filter deletes exactly the element at i and keeps the others in
      order; an index outside the list keeps every element. */
  lemma {:induction false} WithoutIndexRemoves<T>(s: seq<T>, i: int)
    ensures 0 <= i < |s| ==> WithoutIndex(s, i) == s[..i] + s[i + 1..]
    ensures (i < 0 || i >= |s|) ==> WithoutIndex(s, i) == s
    decreases |s|
  {
    if |s| > 0 {
      var init := s[..|s| - 1];
      WithoutIndexRemoves(init, i);
      if i == |s| - 1 {
        assert init == s[..i] + s[i + 1..];
      } else if 0 <= i < |s| - 1 {
        assert init[..i] == s[..i];
        assert init[i + 1..] + [s[|s| - 1]] == s[i + 1..];
      } else {
        assert init + [s[|s| - 1]] == s;
      }
    }
  }

  /** The inputs for the model, when every file encodes:
      `files.map(file => ({ base64, mimeType: file.type }))` under
      `Promise.all`, which fails as soon as one encoding fails. `encode(i)`
      is the outcome of reading the file at position i, so files with the
      same name, type and size may still read differently. */
  function EncodeAll(files: seq<AudioFile>, encode: nat -> Option<string>): (r: Option<seq<AudioInput>>)
    ensures r.Some? <==> forall i :: 0 <= i < |files| ==> encode(i).Some?
    ensures r.Some? ==> |r.value| == |files|
    ensures r.Some? ==> forall i :: 0 <= i < |files| ==>
      r.value[i] == AudioInput(encode(i).value, files[i].mimeType)
    decreases |files|
  {
    if |files| == 0 then Some([])
    else
      var init := EncodeAll(files[..|files| - 1], encode);
      var last := files[|files| - 1];
      if init.Some? && encode(|files| - 1).Some? then
        assert forall i :: 0 <= i < |files| - 1 ==> files[..|files| - 1][i] == files[i];
        Some(init.value + [AudioInput(encode(|files| - 1).value, last.mimeType)])
      else
        None
  }

  /** `isProcessing` of App.tsx, over a processing state: a run is in
      flight while the files are uploaded or the model is asked. */
  predicate InFlight(s: ProcessingState)
  {
    s.status == Uploading || s.status == Processing
  }

  /** The sidebar controls that the processing state gates. The key
      field is not among them: it stays enabled during a run. */
  datatype Control = ResetButton | FileInput | RemoveButton | AnalyzeButton

  /** The control is enabled (for a remove button: rendered) with this key,
      these files and this processing state. Reset, the file input and
      the remove buttons depend on `isProcessing` alone; analyze also
      needs `isReady`. */
  predicate Enabled(c: Control, apiKey: string, files: seq<AudioFile>, s: ProcessingState)
  {
    match c
    case AnalyzeButton => |apiKey| > 0 && |files| > 0 && !InFlight(s)
    case _ => !InFlight(s)
  }

  /** The processing states set along one analysis run: every state but
      the last is in flight, and the run ends in one that is not. */
  predicate IsRun(trace: seq<ProcessingState>)
  {
    |trace| > 0 &&
    (forall j :: 0 <= j < |trace| - 1 ==> InFlight(trace[j])) &&
    !InFlight(trace[|trace| - 1])
  }

  /** During a run none of the reset, file, remove or analyze controls
      can be used, so none of their handlers can interleave with it; once
      it ends, reset, the file input and removal are back,
      and analyze is enabled exactly when the key and the files let the
      handler's guard pass. */
  lemma GatingRules(apiKey: string, files: seq<AudioFile>, trace: seq<ProcessingState>)
    requires IsRun(trace)
    ensures forall j, c :: 0 <= j < |trace| - 1 ==> !Enabled(c, apiKey, files, trace[j])
    ensures Enabled(ResetButton, apiKey, files, trace[|trace| - 1])
    ensures Enabled(FileInput, apiKey, files, trace[|trace| - 1])
    ensures Enabled(RemoveButton, apiKey, files, trace[|trace| - 1])
    ensures Enabled(AnalyzeButton, apiKey, files, trace[|trace| - 1]) <==> apiKey != "" && |files| > 0
    ensures forall s :: Enabled(AnalyzeButton, apiKey, files, s) ==> apiKey != "" && |files| > 0
  {
  }

  /** The state of the application component. */
  class App {
    var apiKey: string
    var files: seq<AudioFile>
    var processingState: ProcessingState
    var result: Option<AnalysisResult>
    var chatSession: Option<ChatSession>

    /** A result and a session are set and cleared together, and a
        completed status always has a result to show. */
    predicate Valid()
      reads this
    {
      (result.Some? <==> chatSession.Some?) &&
      (processingState.status == Completed ==> result.Some?)
    }

    /** `isProcessing`: an analysis run is in flight. */
    predicate IsProcessing()
      reads this
    {
      InFlight(processingState)
    }

    /** `isReady` in the sidebar: a key and at least one file. */
    predicate IsReady()
      reads this
    {
      |apiKey| > 0 && |files| > 0
    }

    constructor()
      ensures apiKey == "" && files == [] && processingState == ProcessingState(Idle, "")
      ensures result == None && chatSession == None
      ensures Valid()
    {
      apiKey := "";
      files := [];
      processingState := ProcessingState(Idle, "");
      result := None;
      chatSession := None;
    }

    /** The key field of the sidebar. */
    method SetApiKey(key: string)
      modifies this
      ensures apiKey == key && files == old(files) && processingState == old(processingState)
      ensures result == old(result) && chatSession == old(chatSession)
      ensures Valid() == old(Valid())
    {
      apiKey := key;
    }

    /** handleFileChange: a non-empty selection is appended after the
        files already chosen, and the result, the session and the status
        are reset; an empty selection changes nothing. */
    method HandleFileChange(selection: seq<AudioFile>)
      modifies this
      ensures apiKey == old(apiKey)
      ensures |selection| == 0 ==>
        files == old(files) && processingState == old(processingState) &&
        result == old(result) && chatSession == old(chatSession)
      ensures |selection| > 0 ==>
        files == old(files) + selection && processingState == ProcessingState(Idle, "") &&
        result == None && chatSession == None
      ensures old(Valid()) ==> Valid()
    {
      if |selection| > 0 {
        files := files + selection;
        result := None;
        chatSession := None;
        processingState := ProcessingState(Idle, "");
      }
    }

    /** handleRemoveFile: the file at the index is dropped, the others
        keep their order, and the result, the session and the status are
        reset, whether or not the index was in range. */
    method HandleRemoveFile(index: int)
      modifies this
      ensures apiKey == old(apiKey)
      ensures files == WithoutIndex(old(files), index)
      ensures 0 <= index < |old(files)| ==> files == old(files)[..index] + old(files)[index + 1..]
      ensures (index < 0 || index >= |old(files)|) ==> files == old(files)
      ensures processingState == ProcessingState(Idle, "") && result == None && chatSession == None
      ensures Valid()
    {
      WithoutIndexRemoves(files, index);
      files := WithoutIndex(files, index);
      result := None;
      chatSession := None;
      processingState := ProcessingState(Idle, "");
    }

    /** handleReset: no files, no result, no session, idle. */
    method HandleReset()
      modifies this
      ensures apiKey == old(apiKey)
      ensures files == [] && processingState == ProcessingState(Idle, "")
      ensures result == None && chatSession == None
      ensures Valid()
    {
      files := [];
      result := None;
      chatSession := None;
      processingState := ProcessingState(Idle, "");
    }

    /** The second half of handleAnalyze, once the files are encoded: the
        request, then either the result, the session and the completed
        status, or the error status with the previous result and session
        kept. */
    method AnalyzeInputs(inputs: seq<AudioInput>, reply: Reply)
      requires apiKey != "" && |inputs| > 0
      modifies this
      ensures apiKey == old(apiKey) && files == old(files)
      ensures reply.Replied? && reply.text.Some? && reply.text.value != "" ==>
        processingState == ProcessingState(Completed, CompletedMessage) &&
        result == Some(Parse(reply.text.value)) && chatSession == Some(CreateChatSession(apiKey, inputs))
      ensures reply.Threw? ==>
        processingState == ProcessingState(Error, ShownMessage(Some(ClassifyError(reply.message)))) &&
        result == old(result) && chatSession == old(chatSession)
      ensures reply.Replied? && (reply.text.None? || reply.text.value == "") ==>
        processingState == ProcessingState(Error, EmptyReplyMessage) &&
        result == old(result) && chatSession == old(chatSession)
      ensures !IsProcessing()
      ensures old(Valid()) ==> Valid()
    {
      var outcome := AnalyzeAudio(apiKey, inputs, reply);
      Settle(inputs, outcome);
    }

    /** The end of the try block or its catch: a parsed analysis is stored
        with a new session and the completed status; an error message is
        shown and the previous result and session stay. */
    method Settle(inputs: seq<AudioInput>, outcome: Result<AnalysisResult, string>)
      modifies this
      ensures apiKey == old(apiKey) && files == old(files)
      ensures outcome.Success? ==>
        processingState == ProcessingState(Completed, CompletedMessage) &&
        result == Some(outcome.value) && chatSession == Some(CreateChatSession(apiKey, inputs))
      ensures outcome.Failure? ==>
        processingState == ProcessingState(Error, ShownMessage(Some(outcome.error))) &&
        result == old(result) && chatSession == old(chatSession)
      ensures !IsProcessing()
      ensures old(Valid()) ==> Valid()
    {
      match outcome {
        case Success(analysis) =>
          var session := CreateChatSession(apiKey, inputs);
          chatSession := Some(session);
          result := Some(analysis);
          processingState := ProcessingState(Completed, CompletedMessage);
        case Failure(message) =>
          processingState := ProcessingState(Error, ShownMessage(Some(message)));
      }
    }

    /** handleAnalyze, with the outcome of encoding each file given as
        `encode` and the outcome of the model request given as `reply`.
        `trace` lists the processing states set along the run, in order;
        the last one is the state left behind, and all the others are in
        flight, so the sidebar keeps every control disabled until the run
        ends (`GatingRules`). The current status is not
        consulted, so a finished or failed run can be repeated; a failure
        keeps the previous result and session. */
    method HandleAnalyze(encode: nat -> Option<string>, reply: Reply)
      returns (trace: seq<ProcessingState>)
      modifies this
      ensures apiKey == old(apiKey) && files == old(files)
      ensures !old(IsReady()) ==>
        trace == [] && processingState == old(processingState) &&
        result == old(result) && chatSession == old(chatSession)
      ensures old(IsReady()) ==>
        |trace| > 0 && trace[0] == ProcessingState(Uploading, UploadingMessage(|files|)) &&
        processingState == trace[|trace| - 1] && !IsProcessing() && IsRun(trace)
      ensures old(IsReady()) && EncodeAll(files, encode).None? ==>
        trace == [trace[0], ProcessingState(Error, UnknownErrorMessage)] &&
        result == old(result) && chatSession == old(chatSession)
      ensures old(IsReady()) && EncodeAll(files, encode).Some? ==>
        |trace| == 3 && trace[1] == ProcessingState(Processing, ProcessingMessage)
      ensures (old(IsReady()) && EncodeAll(files, encode).Some? && reply.Replied? &&
        reply.text.Some? && reply.text.value != "") ==>
        trace[2] == ProcessingState(Completed, CompletedMessage) &&
        result == Some(Parse(reply.text.value)) &&
        chatSession == Some(CreateChatSession(apiKey, EncodeAll(files, encode).value))
      ensures old(IsReady()) && EncodeAll(files, encode).Some? && reply.Threw? ==>
        trace[2] == ProcessingState(Error, ShownMessage(Some(ClassifyError(reply.message)))) &&
        result == old(result) && chatSession == old(chatSession)
      ensures (old(IsReady()) && EncodeAll(files, encode).Some? && reply.Replied? &&
        (reply.text.None? || reply.text.value == "")) ==>
        trace[2] == ProcessingState(Error, EmptyReplyMessage) &&
        result == old(result) && chatSession == old(chatSession)
      ensures old(Valid()) ==> Valid()
    {
      if apiKey == "" || |files| == 0 {
        return [];
      }
      processingState := ProcessingState(Uploading, UploadingMessage(|files|));
      trace := [processingState];
      var inputs := EncodeAll(files, encode);
      if inputs.None? {
        // A FileReader failure rejects with an event that has no message.
        processingState := ProcessingState(Error, ShownMessage(None));
        trace := trace + [processingState];
        return;
      }
      processingState := ProcessingState(Processing, ProcessingMessage);
      trace := trace + [processingState];
      AnalyzeInputs(inputs.value, reply);
      trace := trace + [processingState];
    }
  }
}

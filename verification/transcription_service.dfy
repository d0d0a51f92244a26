/** The speech-to-text collaborator, seen from its callers. Demuxing,
    duration decoding and the speech recognition call itself are not part
    of this model. */
module TranscriptionService {
  import opened Wrappers

  /** `{"text": ..., "duration": int(seconds)}` as `transcribe_audio` returns it. */
  datatype Transcription = Transcription(text: string, duration: int)

  /** `transcribe_audio(file_path)`; `Err` is the message of what it raised. */
  type Transcriber = string -> Result<Transcription, string>
}

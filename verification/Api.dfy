/** What the daemon's interface says about build output. */
module Api {
  import opened Utf8

  /** The bytes of a text. */
  type Text = seq<Byte>

  datatype Stream = Stdout | Stderr

  datatype LogChunk = LogChunk(offset: int, stream: Stream, timestamp: int, text: Text)
}

/** What several components share. */
module Core {

  datatype Option<+T> = None | Some(value: T)

  const TWO32: nat := 0x1_0000_0000

  datatype RecordingState = Stopped | Running | Paused
}

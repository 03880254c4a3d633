/** The control characters the library writes and recognises. */
module Constants {
  /** ASCII escape, 0x1B. */
  const ESC: char := '\U{1b}'
  /** Control Sequence Introducer, `ESC [`. */
  const CSI: string := "\U{1b}["
}

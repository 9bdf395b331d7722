/**
 * Go's `os.FileMode`: a 32-bit mask whose high bits give the node type and
 * whose low nine bits are the Unix permissions. The values are those of Go's
 * `os` package (shared with `io/fs`), which is not part of this model.
 */
module FileModes {

  type FileMode = bv32

  const ModeDir: FileMode        := 1 << 31
  const ModeAppend: FileMode     := 1 << 30
  const ModeExclusive: FileMode  := 1 << 29
  const ModeTemporary: FileMode  := 1 << 28
  const ModeSymlink: FileMode    := 1 << 27
  const ModeDevice: FileMode     := 1 << 26
  const ModeNamedPipe: FileMode  := 1 << 25
  const ModeSocket: FileMode     := 1 << 24
  const ModeSetuid: FileMode     := 1 << 23
  const ModeSetgid: FileMode     := 1 << 22
  const ModeCharDevice: FileMode := 1 << 21
  const ModeSticky: FileMode     := 1 << 20
  const ModeIrregular: FileMode  := 1 << 19

  /** The node-type bits: everything that is not a permission or a flag like setuid. */
  const ModeType: FileMode :=
    ModeDir | ModeSymlink | ModeNamedPipe | ModeSocket | ModeDevice | ModeCharDevice | ModeIrregular

  const ModePerm: FileMode := 0x1ff

  /** The three bits the directory entry tests one by one all belong to the type mask. */
  lemma TypeMaskCoversTestedBits()
    ensures ModeDir & ModeType == ModeDir
    ensures ModeSymlink & ModeType == ModeSymlink
    ensures ModeDevice & ModeType == ModeDevice
    ensures ModeDir != ModeSymlink && ModeDir != ModeDevice && ModeSymlink != ModeDevice
    ensures ModePerm & ModeType == 0
  {
  }
}

# godirwalk directory entries in Dafny

A model of `dirent.go` from the Go package `godirwalk`, a directory-walking
library. The file defines `Dirent`, an immutable description of one filesystem
node (the path it was created from, its base name and its node-type mode bits),
the constructor `NewDirent` that stats a path without following a final symbolic
link, four type predicates, `FollowSymlink`, which resolves a symbolic link into a
new entry, and `Dirents`, a slice of entries that a generic sort orders by name
through `Len`, `Less` and `Swap`.

Files:

- `results.dfy` (module `Results`): `Option` and `Result`, for Go's
  `(value, error)` returns.
- `gostrings.dfy` (module `GoStrings`): Go strings as byte sequences. `LexLess` is
  Go's `<` on strings. It is proved equal to an independent prefix/first-difference
  definition, and proved to be a strict total order.
- `filemodes.dfy` (module `FileModes`): `os.FileMode` as `bv32`, with the mode
  constants of Go's `os` package. `ModeType` is the union of the seven node-type
  bits (directory, symlink, named pipe, socket, device, character device,
  irregular), and `ModePerm` holds the nine permission bits.
- `dirent.dfy` (module `Godirwalk`): the entry, its constructor and predicates,
  `FollowSymlink`, and the sort adapter.

The filesystem is a value of type `FileSystem`. It holds four total functions,
used as oracles: `lstat` (`os.Lstat`, reduced to the mode of its `FileInfo`),
`evalSymlinks` (`filepath.EvalSymlinks`), `abs` (`filepath.Abs`) and `base`
(`filepath.Base`). `NewDirent` and `FollowSymlink` are pure functions over it.
"Makes no filesystem call" is stated as "gives the same result under any other
filesystem" (or under any other values of the oracles that are called later).

`Path`, `Name` and `ModeType` are field selectors (dirent.go:35, :38, :47). For an
entry built by `NewDirent`, its contract fixes all three: the path verbatim,
`Base(path)`, and the `Lstat` mode masked with `ModeType`.

`Dirents` is an `array<Dirent>`. Its slots hold entry values. `Swap` is a method
that exchanges two slots in place. `Len` and `Less` read the array.

Two points where the code is more specific than its comments suggest:

- Every library error is passed through unchanged (dirent.go:25, :78, :83, :88).
  The model therefore has one opaque `Error` and proves which oracle's error comes
  back.
- The doc comment (dirent.go:69, :72) says the original Dirent is returned. The
  code returns `&de`, a pointer to a copy of the value receiver. The model
  returns an equal value.

## Model

| member | source | states |
|---|---|---|
| `Godirwalk.NewDirent` | dirent.go:22-32 | Fails exactly when `Lstat` fails, with `Lstat`'s error. On success: the path is kept verbatim, the name is `Base(path)`, and the stored mode is exactly the `Lstat` mode masked with `ModeType`, so it has no bits outside `ModeType`. Each type predicate agrees with the corresponding bit of the raw stat mode. |
| `Godirwalk.Dirent.Path` | dirent.go:34-35 | Field selector, no contract of its own. `NewDirent`'s contract states that a constructed entry's `Path()` is the given path verbatim. |
| `Godirwalk.Dirent.Name` | dirent.go:37-38 | Field selector, no contract of its own. `NewDirent`'s contract states that a constructed entry's `Name()` is `Base` of its path. |
| `Godirwalk.Dirent.ModeType` | dirent.go:40-47 | Field selector, no contract of its own. `NewDirent`'s contract states that a constructed entry's `ModeType()` is the `Lstat` mode masked with `ModeType`. |
| `Godirwalk.Dirent.IsDir` | dirent.go:49-53 | True exactly when the single `ModeDir` bit is set. |
| `Godirwalk.Dirent.IsRegular` | dirent.go:55-57 | True exactly when none of the seven node-type bits is set. This implies not a directory, not a symlink and not a device. |
| `Godirwalk.Dirent.IsSymlink` | dirent.go:59-64 | True exactly when the single `ModeSymlink` bit is set. |
| `Godirwalk.Dirent.IsDevice` | dirent.go:94-95 | True exactly when the single `ModeDevice` bit is set. |
| `Godirwalk.MaskingKeepsNodeType` | dirent.go:27-31 | Masking with `ModeType` is idempotent. An entry built from the masked mode has the same four predicate values as one built from the raw mode. |
| `Godirwalk.TypePredicatesOverlap` | dirent.go:49-64 | A mode with both the directory and symlink bits makes `IsDir` and `IsSymlink` both true (and `IsRegular` false), so the predicates are not exclusive. |
| `FileModes.TypeMaskCoversTestedBits` | dirent.go:53-57 | The dir, symlink and device bits are distinct and lie inside `ModeType`. The permission bits lie outside it. |
| `Godirwalk.Dirent.FollowSymlink` | dirent.go:66-92 | A non-link comes back unchanged with no error. Any error comes with the original entry, only for a link, and is the error of the first failing step (resolve, then absolutize, then re-stat). A successful link result is the entry that `NewDirent` builds for `Abs(EvalSymlinks(path))`. |
| `Godirwalk.FollowSymlinkNonLink` | dirent.go:70-74 | For a non-link the result is the same under every filesystem (no oracle is consulted). It is `(de, nil)`, and following again gives the same result. |
| `Godirwalk.FollowSymlinkResolveFails` | dirent.go:76-79 | A failed `EvalSymlinks` returns the original entry with that error. The result does not depend on `Abs`, `Lstat` or `Base`. |
| `Godirwalk.FollowSymlinkAbsFails` | dirent.go:81-84 | A failed `Abs` returns the original entry with that error. The result does not depend on `Lstat` or `Base`. |
| `Godirwalk.FollowSymlinkStatFails` | dirent.go:86-89 | A failed re-stat of the absolute target returns the original entry with the stat error. |
| `Godirwalk.FollowSymlinkSucceeds` | dirent.go:86-91 | When all three steps succeed, the result is a new entry with the absolute path, its base name and the target's masked mode, and no error. |
| `Godirwalk.Len` | dirent.go:101-102 | The array length, no contract of its own. `Swap` ensures `Len(l) == old(Len(l))`, so the count survives every swap. |
| `Godirwalk.Less` | dirent.go:104-106 | True exactly when the name at `i` is a proper prefix of the name at `j`, or the two names first differ at a byte that is smaller in the name at `i`. |
| `Godirwalk.LessIsStrictOrder` | dirent.go:104-106 | `Less` is irreflexive, asymmetric and transitive. For any two slots exactly one holds: `i` before `j`, `j` before `i`, or equal names. |
| `Godirwalk.ByteOrderPutsUpperCaseFirst` | dirent.go:104-106 | Byte-wise order puts "Apple" before "banana" before "cherry". |
| `GoStrings.LexLessMeaning` | dirent.go:106 | Go's recursive byte-wise `<` equals the prefix/first-difference definition, in both directions. |
| `GoStrings.LexLessIrreflexive` | dirent.go:106 | No string is less than itself. |
| `GoStrings.LexLessAsymmetric` | dirent.go:106 | `a < b` rules out `b < a`. |
| `GoStrings.LexLessTransitive` | dirent.go:106 | `a < b` and `b < c` give `a < c`. |
| `GoStrings.LexLessTrichotomous` | dirent.go:106 | Exactly one of `a < b`, `b < a` and `a == b` holds. |
| `Godirwalk.Swapped` | dirent.go:108-109 | Same length. Position `i` holds the old `j` element, `j` holds the old `i` element, and every other position is unchanged. |
| `Godirwalk.SwappedIsPermutation` | dirent.go:108-109 | Exchanging two slots preserves the multiset of elements. |
| `Godirwalk.SwappedInvolution` | dirent.go:108-109 | Exchanging the same two slots twice restores the sequence. |
| `Godirwalk.Swap` | dirent.go:108-109 | In place, the array becomes `Swapped(old contents, i, j)`. `Len` is unchanged, the multiset is preserved, and swapping again would restore the old contents. |

## Left out

- Filesystem behaviour: `os.Lstat`, `filepath.EvalSymlinks` and `filepath.Abs` are uninterpreted oracles. The model does not know that `EvalSymlinks` returns a path that is no longer a link, so it does not claim that a followed entry is never a symlink.
- `filepath.Base`: an uninterpreted oracle. Its separator, trailing-slash and volume rules are platform specific.
- `os.FileInfo`: only its mode is modelled. Size, times and the rest are never used by `dirent.go`.
- The constants of `os.FileMode` follow Go's current values, where `ModeType` includes `ModeIrregular` (Go 1.11 and later). With an older Go, `IsRegular` would also accept a mode whose only type bit is `ModeIrregular`.
- Pointers in `Dirents`: the Go slice holds `*Dirent`. The model holds entry values, so aliasing between slots and nil slots are not modelled. Entries are never mutated, so sharing is not observable, except that `Less` on a nil slot panics.
- Index panics: Go panics on an out-of-range index in `Less` and `Swap`. The model requires in-range indices.
- `sort.Sort` belongs to Go's standard library. The model proves only what the adapter provides (a strict order and a permutation-preserving swap), not the sort algorithm or its stability.

# AmebaPro2 build script: the file-assembly and decision layer

`platform-amebapro2/builder/main.py` is the PlatformIO build script for the
Realtek AmebaPro2 (RTL8735B). It compiles the vendor SDK into a bootloader and an
application, post-processes the ELF files into flash images with the vendor
tools (`elf2bin`, `checksum`), combines those images into one composite flash
image, and uploads that image with the serial burner `uartfwburn`.

This project models the part of the script that decides things and moves files.
The vendor tools and the compiler are not modelled. What is modelled:

- **Flags** (`flags.dfy`): the feature switches USE_TZ, USE_WLANMP, MPCHIP and
  UNITEST. Each is resolved with Python's `or` truthiness and `int()`. The upload
  port and speed defaults are also here.
- **Paths** (`paths.dfy`): `os.path.join` and `norm_unix`, the extraction of
  `-I` include directories from `build_flags`, and the object-file naming of
  `_mk_objs`. `os.path.relpath` is modelled on component lists.
- **Sources** (`sources.dfy`): the HAL sources appended when TrustZone is on
  and the ones appended when it is off.
- **Images** (`images.dfy`): 4 KB alignment, the names of the flash images,
  and the partition mapping handed to `elf2bin combine`.
- **Actions** (`actions.dfy`): what each action does to the build directory.
  This is stated as functions from the directory before to the directory
  after, plus the commands run and how the action ends. The actions are:
  - `_run`, `_pad_to_4k`, `_touch_4k`, `_safe_copy`, `_concat_bins`
  - the plain image merge `_imagetool_image2_action`
  - `_flash_action`
  - `_pick_flash_image` and `upload_amebapro2`
- **Build** (`build.dfy`): the build directory as an object, `BuildDir`, whose
  methods change it step by step the way the script does. For example,
  `PadTo4k` appends 0xFF one byte at a time and `ConcatBins` copies part by
  part. Each method is proved to leave exactly the state that the matching
  function of `Actions` describes.

The build directory is a map from file name to (bytes, modification time).
Every write stamps the action's time `now`. `shutil.copy2` keeps the source's
entry, time stamp included. `shutil.copy` (the flash loader) stamps `now`.

Python exceptions are modelled as values of `Common.Error`: `FileNotFoundError`,
`shutil.SameFileError`, the `RuntimeError` of a strict `_run` or of a failed
upload, and the `ValueError` of `int()`.

External tools are opaque. Each tool's return code is an input. The image that
`elf2bin combine` writes is also an input, and so is what `checksum` leaves in
each OTA copy it rewrites in place. The directory listing that `glob`
walks is an input as well.

Two behaviours of the script are modelled as written:

- The plain merge names its output after USE_TZ alone, ignoring USE_WLANMP
  (main.py:998).
- The SCons node of the merge is hard-coded to `flash_ntz.bin` (main.py:1036-1040)
  and is the only dependency of the `flash` command (main.py:1052).

Where the repository's documentation and the code differ, the model follows the
code:

- This revision has no NN-model variant of the flash action.
- With MPCHIP the mapping always names `certable.bin` and `certificate.bin`.
- Nothing checks that `firmware.bin` exists before combining. The flash action
  only copies it from `application.bin` when it is missing.
- The sensor-IQ stage is not a dependency of `flash`. The flash action therefore
  creates an erased placeholder `firmware_isp_iq.bin` when the file is missing.

## Model

| member | source | states |
|---|---|---|
| Common.Strip | platform-amebapro2/builder/main.py:57 | `str.strip()`: never longer than its input, never starts or ends with white space, and leaves text without surrounding white space as it is |
| Common.StripTrims | platform-amebapro2/builder/main.py:57 | `str.strip()` removes only leading and trailing white space, and the result neither starts nor ends with white space |
| Flags.ParseInt | platform-amebapro2/builder/main.py:31-46 | `int(text)` succeeds iff the stripped text is an optional sign followed by decimal digits with single underscores between digits; a `-` sign gives a value at most 0, no sign or `+` one at least 0; a plain digit string gives its decimal value; anything else raises `ValueError` carrying the text |
| Flags.UnderscoreIgnored | platform-amebapro2/builder/main.py:31-46 | an underscore between two digit groups is ignored: `int("1_0") == int("10") == 10` |
| Flags.ParseNonNegative | platform-amebapro2/builder/main.py:1075 | `int(str(n))` gives back `n` for every natural number |
| Flags.ParseNegative | platform-amebapro2/builder/main.py:31-46 | `int("-" + digits)` gives minus the digits' value |
| Flags.ParseIntToString | platform-amebapro2/builder/main.py:1075 | `int(str(i)) == i` for every integer (round trip) |
| Flags.ResolveFlag | platform-amebapro2/builder/main.py:31-34 | the project option wins when non-empty; otherwise an unset variable gives 0 through its default "0"; a non-empty variable is parsed; only an empty variable lets the compile definition decide between 1 and 0 |
| Flags.DefinesConsultedOnlyForEmptyVariable | platform-amebapro2/builder/main.py:31-46 | changing the compile definitions changes a switch only when its option is empty and its variable is set to the empty string |
| Flags.ResolveConfig | platform-amebapro2/builder/main.py:31-46 | configuration succeeds iff all four switches parse, with their values; otherwise the error is TrustZone's if it fails, else WLANMP's, else MPCHIP's, else UNITEST's, in source order |
| Flags.NothingConfiguredMeansAllOff | platform-amebapro2/builder/main.py:31-46 | with no options and no environment every switch is 0, whatever the compile definitions say |
| Flags.FirstSet | platform-amebapro2/builder/main.py:1074-1075 | `option or environ or default`: the first non-empty text |
| Flags.UploadPort | platform-amebapro2/builder/main.py:1074 | the port is never empty: the `upload_port` option when non-empty, else a non-empty `UPLOAD_PORT`, and `COM3` when both are missing or empty |
| Flags.UploadSpeed | platform-amebapro2/builder/main.py:1075 | the speed text is never empty: the `upload_speed` option when non-empty, else a non-empty `UPLOAD_SPEED`, and text that parses back to 1500000 when both are missing or empty |
| Paths.JoinParts | platform-amebapro2/builder/main.py:61-62 | `os.path.join`: an absolute second part replaces the first; otherwise the result starts with the first part and ends with the second |
| Paths.JoinInjective | platform-amebapro2/builder/main.py:577 | joining relative parts onto one directory keeps them apart |
| Paths.NormUnix | platform-amebapro2/builder/main.py:564-565 | every back-slash becomes `/`, every other character and the length are kept, and no back-slash remains |
| Paths.NormUnixIdempotent | platform-amebapro2/builder/main.py:564-565 | normalising twice is normalising once |
| Paths.NormUnixKeeps | platform-amebapro2/builder/main.py:564-565 | a path without back-slashes is unchanged |
| Paths.FlagList | platform-amebapro2/builder/main.py:49-53 | an unset or empty `build_flags` gives no flags, a single string one flag, a list itself |
| Paths.IncludeDir | platform-amebapro2/builder/main.py:57-63 | a flag names a directory iff it starts with `-I` after stripping; an absolute directory is kept, a relative one is joined onto the project directory |
| Paths.IncludeDirs | platform-amebapro2/builder/main.py:55-63 | at most one directory per flag |
| Paths.IncludeDirsComplete | platform-amebapro2/builder/main.py:55-63 | a directory is collected iff some flag names it |
| Paths.IncludeDirsAbsolute | platform-amebapro2/builder/main.py:61-63 | with an absolute project directory every collected directory is absolute |
| Paths.ExtractIncludeDirs | platform-amebapro2/builder/main.py:49-63 | the loop collects exactly the directories the flags name, in flag order |
| Paths.CommonLength | platform-amebapro2/builder/main.py:576 | the longest common prefix of two paths, which `relpath` walks up from |
| Paths.RelComponents | platform-amebapro2/builder/main.py:576 | `relpath(path, start)` is never empty; for a normalised path, walking it from `start` leads back to `path`, its components re-join unambiguously, and it holds no back-slash the path did not |
| Paths.RelComponentsInjective | platform-amebapro2/builder/main.py:576 | distinct paths have distinct relative paths from one start |
| Paths.RenderInjective | platform-amebapro2/builder/main.py:576 | the `/`-joined text of a relative path determines the path |
| Paths.RelText | platform-amebapro2/builder/main.py:576 | the normalised relative text holds no back-slash; for a normalised source it is non-empty and, without back-slashes, never absolute |
| Paths.RelTextOutsideSdk | platform-amebapro2/builder/main.py:576-577 | a source outside the SDK gets a relative text that starts by climbing out with `..`, so `os.path.join(obj_root, rel)` leaves `obj_root` |
| Paths.RelTextInjective | platform-amebapro2/builder/main.py:576 | distinct sources without back-slashes have distinct normalised relative texts |
| Paths.ObjectNameShape | platform-amebapro2/builder/main.py:577 | the object of a relative source text lies under `obj_root` and ends with that text, the suffix and `.o`; an absolute text discards `obj_root` |
| Paths.ObjectNameCancel | platform-amebapro2/builder/main.py:577 | equal object names come from equal joined paths |
| Paths.ObjectPathInsideSdk | platform-amebapro2/builder/main.py:576-577 | a source inside the SDK gets its object at the same path below the object root |
| Paths.ObjectPathsDistinct | platform-amebapro2/builder/main.py:573-580 | one object root and suffix never give two distinct sources the same object path text |
| Paths.BootloaderAndApplicationObjectsDiffer | platform-amebapro2/builder/main.py:573-580 | a `.bootloader` object and an `.application` object never share a name |
| Paths.MkObjs | platform-amebapro2/builder/main.py:573-580 | one object per source, in source order, each named as `ObjectPath` says |
| Sources.InSdk | platform-amebapro2/builder/main.py:478-494 | one SDK path per listed name, in order |
| Sources.TrustZoneSources | platform-amebapro2/builder/main.py:478-494 | with TrustZone exactly the eight `ram_s` files in order and no `ram_ns` file; without it exactly the three `ram_ns` files in order and no `ram_s` file |
| Sources.ApplicationSources | platform-amebapro2/builder/main.py:478-494 | the base list is kept as a prefix and the TrustZone-dependent files follow it |
| Sources.TrustZoneSubsetComplete | platform-amebapro2/builder/main.py:478-494 | every file of the chosen subset is in the appended list |
| Images.AlignedSize | platform-amebapro2/builder/main.py:741-742 | the padded size is a multiple of 4096, at least the size and less than 4096 above it, and 0 only for an empty file |
| Images.AlignedSizeIsLeast | platform-amebapro2/builder/main.py:741-742 | no smaller multiple of 4096 holds the file |
| Images.AlignedSizeOfAligned | platform-amebapro2/builder/main.py:741-743 | an aligned size needs no padding |
| Images.Padded | platform-amebapro2/builder/main.py:739-747 | padding keeps the data as a prefix and appends 0xFF up to the aligned size |
| Images.PaddedAlignedUnchanged | platform-amebapro2/builder/main.py:743-744 | an aligned image is unchanged |
| Images.PaddedIdempotent | platform-amebapro2/builder/main.py:739-747 | padding twice is padding once |
| Images.PaddedOneShort | platform-amebapro2/builder/main.py:739-747 | an image one byte short of a boundary gains exactly one 0xFF |
| Images.CompositeImageName | platform-amebapro2/builder/main.py:763-766 | the combined image is a `flash_*.bin` name, starting `flash_tz` iff USE_TZ and ending `_mp.bin` iff USE_WLANMP |
| Images.PlainMergeName | platform-amebapro2/builder/main.py:998 | the merge output is a `flash_*.bin` name, starting `flash_tz` iff USE_TZ, and never an `_mp` name |
| Images.CompositeNameDeterminesFlags | platform-amebapro2/builder/main.py:763-766 | two flag settings give the same combined name iff they agree on USE_TZ and USE_WLANMP |
| Images.MergeNameMatchesCompositeOnlyWithoutWlanMp | platform-amebapro2/builder/main.py:998 | the merge writes the name the flash action and upload look for iff USE_WLANMP is off |
| Images.MergeTargetMatchesOnlyWithoutTz | platform-amebapro2/builder/main.py:1036-1040 | the merge writes the file its SCons node declares iff USE_TZ is off |
| Images.MappingEntries | platform-amebapro2/builder/main.py:777-783 | the partition mapping is never empty |
| Images.EntryTexts | platform-amebapro2/builder/main.py:777-783 | each entry is rendered as `PARTITION=file`, in order |
| Images.ParseEntryText | platform-amebapro2/builder/main.py:777-783 | an entry's text reads back as the entry and holds no comma |
| Images.ParseRenderMapping | platform-amebapro2/builder/main.py:777-783 | a rendered mapping splits back into its entries, in order |
| Images.MappingEntriesPlain | platform-amebapro2/builder/main.py:777-783 | no partition or file name in the mapping contains `,` or `=` |
| Images.CombineMapping | platform-amebapro2/builder/main.py:777-783 | the mapping text handed to `combine` reads back, split at commas and then at `=`, as exactly its partition entries in order |
| Images.CombineMappingParses | platform-amebapro2/builder/main.py:777-783 | `PT_FCSDATA` is in the mapping iff MPCHIP and `boot_fcs.bin` exists; `CER_TBL` is in it iff MPCHIP |
| Images.MappingFiles | platform-amebapro2/builder/main.py:777-783 | the mapping names only the six build-directory files, and without MPCHIP only `boot.bin`, `firmware.bin` and `firmware_isp_iq.bin` |
| Actions.Run | platform-amebapro2/builder/main.py:723-737 | a command raises iff it is strict and returns non-zero; otherwise its return code is returned |
| Actions.Pad | platform-amebapro2/builder/main.py:739-747 | the file's data becomes its padded form and is re-stamped only when bytes were appended; no other file changes |
| Actions.Touch | platform-amebapro2/builder/main.py:749-752 | a missing file becomes one erased 4096-byte sector; an existing one is untouched |
| Actions.Copy | platform-amebapro2/builder/main.py:116-122 | `copy2` gives the destination the source's entry and changes nothing else |
| Actions.SafeCopy | platform-amebapro2/builder/main.py:116-122 | a present source is copied; a missing one, or a copy onto itself, changes nothing |
| Actions.SafeCopyMissingSource | platform-amebapro2/builder/main.py:116-122 | a missing source skips the copy and reports false |
| Actions.MissingPart | platform-amebapro2/builder/main.py:754-760 | the part `_concat_bins` fails on: a non-empty name that does not exist and before which every named part exists; none iff every named part exists |
| Actions.Gathered | platform-amebapro2/builder/main.py:754-760 | with every named part present, the bytes written are the parts' contents in order, empty names skipped |
| Actions.Concat | platform-amebapro2/builder/main.py:754-760 | the output is (re)written with the parts read before the first missing one, stamped now; no other file changes |
| Actions.ConcatStatus | platform-amebapro2/builder/main.py:754-760 | the concatenation raises iff a non-empty part is missing, naming the first such part |
| Actions.FirstPresent | platform-amebapro2/builder/main.py:1015-1025 | the chosen third image exists and is a candidate; none is chosen only when no candidate exists |
| Actions.FirstPresentIsFirst | platform-amebapro2/builder/main.py:1015-1025 | the earliest existing candidate is the one chosen |
| Actions.Merge | platform-amebapro2/builder/main.py:988-1032 | the merge runs no external command, succeeds iff `boot.bin` and `application.bin` both exist, and writes nothing when it fails |
| Actions.MergeChecksInputs | platform-amebapro2/builder/main.py:1004-1009 | a missing `boot.bin` raises first, then a missing `application.bin`, naming the file, with nothing written |
| Actions.MergeNameNotAnInput | platform-amebapro2/builder/main.py:998-1028 | the merge output is never one of its inputs |
| Actions.MergeOutput | platform-amebapro2/builder/main.py:988-1032 | the merged image is padded boot, then padded application, then the padded first third image if any, and its length is a multiple of 4096 |
| Actions.MergePadsInputs | platform-amebapro2/builder/main.py:1010-1024 | after a successful merge, `boot.bin`, `application.bin` and the chosen third image each hold what padding that file alone leaves |
| Actions.MergeFrame | platform-amebapro2/builder/main.py:988-1032 | every file the merge neither pads nor writes keeps its entry |
| Actions.Fixups | platform-amebapro2/builder/main.py:768-775 | the fix-ups never overwrite a file; `firmware.bin` appears as a copy of `application.bin` exactly when it was missing and that exists; `firmware_isp_iq.bin` always exists afterwards, as an erased sector if it was missing; no other file appears |
| Actions.OtaCopies | platform-amebapro2/builder/main.py:789-794 | the OTA loop only appends to the command log, at most one command per pair |
| Actions.OtaCopiesLog | platform-amebapro2/builder/main.py:788-794 | the OTA loop runs the checksum tool on exactly the copies it makes: `ota.bin` when `firmware.bin` exists, `isp_iq_ota.bin` when `firmware_isp_iq.bin` exists, `boot_ota.bin` when `boot.bin` exists, in that order |
| Actions.OtaCopiesFrame | platform-amebapro2/builder/main.py:789-794 | the OTA loop leaves every file that is no copy destination as it was and creates no other file |
| Actions.Flash | platform-amebapro2/builder/main.py:762-797 | `combine` is the first command, with the mapping chosen by MPCHIP and `boot_fcs.bin`; the action raises iff it returns non-zero, and then runs nothing more |
| Actions.FlashLog | platform-amebapro2/builder/main.py:762-797 | a failed combine is the last command run; after a successful one come the checksum runs on `ota.bin` if `firmware.bin` exists after the fix-ups, always on `isp_iq_ota.bin`, and on `boot_ota.bin` if `boot.bin` exists, in that order |
| Actions.OtaCopiesEffect | platform-amebapro2/builder/main.py:789-794 | each OTA copy whose source exists receives the source's entry as the checksum tool leaves it; no other file changes |
| Actions.FlashEffect | platform-amebapro2/builder/main.py:762-797 | whatever the combine returns, the composite image holds what it wrote; every other file keeps its entry unless it is an OTA copy; only the fix-ups, the composite image and the OTA copies can be new; after a failed combine the directory is exactly the fix-ups plus the combine's image |
| Actions.OtaFrame | platform-amebapro2/builder/main.py:789-794 | the OTA copies change only `ota.bin`, `isp_iq_ota.bin` and `boot_ota.bin` and create no other file |
| Actions.FlashOtaCopies | platform-amebapro2/builder/main.py:762-797 | after a successful combine `isp_iq_ota.bin` always exists, and each OTA copy holds its source after the fix-ups as the checksum tool leaves it |
| Actions.OtaNotImage | platform-amebapro2/builder/main.py:766-791 | no flash image name is one of the files the OTA step reads or writes |
| Actions.FlashImages | platform-amebapro2/builder/main.py:1067 | the glob yields exactly the listed `flash_*.bin` files |
| Actions.FlashImagesPosition | platform-amebapro2/builder/main.py:1067 | the glob keeps the listing's order: the k-th image follows, in the listing, only flash images that come before it in the result |
| Actions.Newest | platform-amebapro2/builder/main.py:1067-1069 | the newest candidate is one of the candidates |
| Actions.NewestIsLatest | platform-amebapro2/builder/main.py:1067-1069 | no candidate is newer than the one picked, and every candidate listed before it is strictly older |
| Actions.PickFlashImage | platform-amebapro2/builder/main.py:1058-1070 | a picked image exists and is a flash image; failure raises `FileNotFoundError` |
| Actions.PickFlashImageChoice | platform-amebapro2/builder/main.py:1058-1070 | the flag-derived image wins when present, else the newest flash image, and among equally new images the first in the listing; the pick fails iff there is no flash image |
| Actions.Attempts | platform-amebapro2/builder/main.py:1098-1101 | two burner commands, `-p port -b baud -f image -U -v pro2 -r`, the first with `-d p2m` added |
| Actions.AttemptsMade | platform-amebapro2/builder/main.py:1102-1106 | attempts stop right after the first zero return code |
| Actions.Upload | platform-amebapro2/builder/main.py:1072-1112 | the upload succeeds iff an image is picked, a flash loader is available and one attempt returns 0; a failed pick or a missing loader raises before any command; at most the two attempts are appended to the log |
| Actions.UploadAttempts | platform-amebapro2/builder/main.py:1072-1112 | the upload tries `-d p2m` first; success on the first attempt runs only that one; otherwise both run, and failure of both raises |
| Actions.UploadFiles | platform-amebapro2/builder/main.py:1091-1095 | an existing flash loader is kept; a missing one is copied in stamped now; nothing else changes |
| Build.BuildDir.RunTool | platform-amebapro2/builder/main.py:723-737 | logs the command and returns what `Run` says |
| Build.BuildDir.PadTo4k | platform-amebapro2/builder/main.py:739-747 | the byte-at-a-time loop leaves exactly `Pad`'s directory; a missing file raises |
| Build.BuildDir.Touch4k | platform-amebapro2/builder/main.py:749-752 | leaves exactly `Touch`'s directory |
| Build.BuildDir.SafeCopy | platform-amebapro2/builder/main.py:116-122 | leaves `SafeCopy`'s directory and returns whether it copied |
| Build.BuildDir.ConcatBins | platform-amebapro2/builder/main.py:754-760 | the part-by-part loop leaves exactly `Concat`'s directory and `ConcatStatus`'s outcome |
| Build.BuildDir.ImagetoolImage2 | platform-amebapro2/builder/main.py:988-1032 | the in-place padding, the candidate loop with its early exit and the concatenation leave exactly `Merge`'s directory and outcome |
| Build.BuildDir.CopyOtaImages | platform-amebapro2/builder/main.py:789-794 | the OTA loop, with the checksum tool's in-place stamping, leaves exactly `OtaCopies`'s directory and log |
| Build.BuildDir.FlashAction | platform-amebapro2/builder/main.py:762-797 | leaves exactly `Flash`'s directory, log and outcome |
| Build.BuildDir.RunAttempts | platform-amebapro2/builder/main.py:1102-1108 | logs the attempts up to the first success and succeeds iff one returns 0 |
| Build.BuildDir.Upload | platform-amebapro2/builder/main.py:1072-1112 | leaves exactly `Upload`'s directory, log and outcome |

## Left out

- The SCons environment set-up is not modelled. This covers compiler and linker flags, the fixed source and include lists, the library lists and the `Object`/`Program` builders. The base source list that the TrustZone files are appended to is a parameter.
- The other post-processing stages are not modelled: key generation, the sensor-IQ and bootloader/application post-builds, hashing, signing, and `git`/`lwipopts.h` handling. They only invoke vendor tools with fixed arguments.
- What the vendor tools compute is not modelled. Their return codes, the combined image and what `checksum` leaves in each OTA copy it stamps are inputs. A copy that the `checksum` inputs do not name is taken to be left as it was.
- Printing is not modelled. Exceptions raised by `subprocess` itself, such as a tool that does not exist, are not modelled either.
- Build.BuildDir.FlashAction: the image that `elf2bin combine` writes is applied whatever its return code, as one optional input.
- The directory creation in `_mk_objs` and in the actions (`os.makedirs`) is not modelled.
- The SCons `Object` nodes that `_mk_objs` returns are not modelled. `Paths.MkObjs` returns their target paths.
- Paths.RelText: sources outside the SDK are modelled, and `Paths.RelTextOutsideSdk` shows that their objects land outside the object root; what SCons then does with such a target is not modelled.
- Paths are POSIX paths, and `relpath` works on absolute, normalised component lists. Windows paths and the `os.name == "nt"` choice of burner are not modelled.
- Common.Strip and Flags.ParseInt treat only ASCII white space and ASCII digits. Unicode white space and digits, which Python's `str.strip()` and `int()` also accept, are not modelled.
- Build.BuildDir.ConcatBins requires that the output is not one of its parts. The script never concatenates a file onto itself, and reading a file that `open(..., "wb")` has just truncated is not modelled.
- Images.CombineMapping is defined from its list of `PARTITION=file` entries joined with commas, rather than as the literal text of main.py:779-783. The entries are the same pairs in the same order.
- Actions.PickFlashImage takes the glob's directory listing as a parameter. `PickFlashImageChoice` assumes that the listing names every `flash_*.bin` file. Ties between equal modification times go to the earlier listed file, as the stable sort does.
- Actions.Upload: whether `flash_loader_nor.bin` exists beside the burner is an input. A missing loader raises `FileNotFoundError`, which the model names after the loader's source path.
- The rebuild consequences of the hard-coded `flash_ntz.bin` merge target are not modelled: SCons's up-to-date checks are outside the model. `Images.MergeTargetMatchesOnlyWithoutTz` states when that target is the file the merge actually writes.

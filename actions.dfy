/**
  What the file-assembly actions of platform-amebapro2/builder/main.py do to
  the build directory, as functions from the directory before to the
  directory after. The directory maps a file name to its bytes and its
  modification time; every write stamps the current time `now`. External
  tools are opaque: their return codes and whatever they write are inputs.
  In particular the checksum tool stamps each OTA copy in place; what it
  leaves in a copy is given by `sums`, keyed by the copy's name, and a name
  missing from `sums` means the tool left that copy as it was.
 */
module Actions {
  import opened Common
  import opened Flags
  import opened Paths
  import opened Images

  /** One file of the build directory. */
  datatype FileEntry = FileEntry(data: seq<byte>, mtime: int)

  /** The build directory, by file name. */
  type Files = map<string, FileEntry>

  /** An external command line, program first. */
  type Command = seq<string>

  /** Where the vendor tools and inputs outside the build directory live. */
  datatype Tools = Tools(elf2bin: string, checksum: string, burner: string,
                         partitionTable: string, flashLoader: string)

  /** The build directory after an action, the commands it ran, and how it ended. */
  datatype Outcome = Outcome(files: Files, log: seq<Command>, status: Status)

  // ---------------------------------------------------------------------
  // _run
  // ---------------------------------------------------------------------

  /** `_run`: the return code, unless the call is strict and the command failed. */
  function Run(cmd: Command, rc: int, strict: bool): (r: Result<int>)
    ensures r.Err? <==> strict && rc != 0
    ensures r.Err? ==> r.error == CommandFailed(cmd)
    ensures r.Ok? ==> r.value == rc
  {
    if strict && rc != 0 then Err(CommandFailed(cmd)) else Ok(rc)
  }

  // ---------------------------------------------------------------------
  // _pad_to_4k, _touch_4k, _safe_copy, _concat_bins
  // ---------------------------------------------------------------------

  /** `_pad_to_4k` on a file that exists: the file is opened for appending, and
      so re-stamped, only when padding is needed. */
  function Pad(fs: Files, name: string, now: int): (r: Files)
    requires name in fs
    ensures r.Keys == fs.Keys
    ensures r[name].data == Padded(fs[name].data)
    ensures r[name].mtime == if |fs[name].data| % Block == 0 then fs[name].mtime else now
    ensures forall n :: n in fs && n != name ==> r[n] == fs[n]
  {
    var d := fs[name].data;
    if AlignedSize(|d|) - |d| > 0 then fs[name := FileEntry(Padded(d), now)]
    else
      PaddedAlignedUnchanged(d);
      fs
  }

  /** `_touch_4k`: a missing file becomes one erased 4 KB sector; an existing
      file is left alone. */
  function Touch(fs: Files, name: string, now: int): (r: Files)
    ensures r.Keys == fs.Keys + {name}
    ensures name in fs ==> r == fs
    ensures name !in fs ==> r[name] == FileEntry(Fill(Block), now)
    ensures forall n :: n in fs ==> r[n] == fs[n]
  {
    if name in fs then fs else fs[name := FileEntry(Fill(Block), now)]
  }

  /** `shutil.copy2(src, dst)` between two distinct names: the copy keeps the
      bytes and the modification time. */
  function Copy(fs: Files, src: string, dst: string): (r: Files)
    requires src in fs && src != dst
    ensures r.Keys == fs.Keys + {dst}
    ensures r[dst] == fs[src]
    ensures forall n :: n in fs && n != dst ==> r[n] == fs[n]
  {
    fs[dst := fs[src]]
  }

  /** What `_safe_copy` reports: whether it copied, or the error copying a
      file onto itself raises. */
  function SafeCopyResult(fs: Files, src: string, dst: string): Result<bool> {
    if src !in fs then Ok(false)
    else if src == dst then Err(SameFile(src))
    else Ok(true)
  }

  /** The directory after `_safe_copy`. */
  function SafeCopy(fs: Files, src: string, dst: string): (r: Files)
    ensures SafeCopyResult(fs, src, dst) == Ok(true) ==> r == Copy(fs, src, dst)
    ensures SafeCopyResult(fs, src, dst) != Ok(true) ==> r == fs
  {
    if src in fs && src != dst then Copy(fs, src, dst) else fs
  }

  /** `_safe_copy` never changes anything when its source is missing. */
  lemma SafeCopyMissingSource(fs: Files, src: string, dst: string)
    requires src !in fs
    ensures SafeCopy(fs, src, dst) == fs && SafeCopyResult(fs, src, dst) == Ok(false)
  {
  }

  /** The first part `_concat_bins` cannot open, skipping empty names. */
  function MissingPart(fs: Files, parts: seq<string>): (r: Option<string>)
    ensures r.Some? ==> r.value in parts && r.value != "" && r.value !in fs
    ensures r.Some? ==> MissedFirst(fs, parts, r.value)
    ensures r.None? <==> Openable(fs, parts)
  {
    if parts == [] then None
    else if parts[0] != "" && parts[0] !in fs then
      assert parts[0] == parts[0] && Openable(fs, parts[..0]);
      assert MissedFirst(fs, parts, parts[0]);
      Some(parts[0])
    else
      var r := MissingPart(fs, parts[1..]);
      OpenableCons(fs, parts);
      assert r.Some? ==> MissedFirst(fs, parts, r.value) by {
        if r.Some? {
          var i :| 0 <= i < |parts| - 1 && parts[1..][i] == r.value && Openable(fs, parts[1..][..i]);
          OpenableCons(fs, parts[..i + 1]);
          assert parts[..i + 1][1..] == parts[1..][..i];
          assert parts[i + 1] == r.value;
        }
      }
      r
  }

  /** `v` is the first name among `parts` that cannot be opened: every
      named part before it exists. */
  predicate MissedFirst(fs: Files, parts: seq<string>, v: string) {
    exists i :: 0 <= i < |parts| && parts[i] == v && Openable(fs, parts[..i])
  }

  /** Every named part exists (empty names are skipped). */
  predicate Openable(fs: Files, parts: seq<string>) {
    forall i :: 0 <= i < |parts| && parts[i] != "" ==> parts[i] in fs
  }

  lemma OpenableCons(fs: Files, parts: seq<string>)
    requires parts != [] && (parts[0] == "" || parts[0] in fs)
    ensures Openable(fs, parts) <==> Openable(fs, parts[1..])
  {
    if Openable(fs, parts[1..]) {
      forall i | 0 <= i < |parts| && parts[i] != "" ensures parts[i] in fs {
        if i > 0 { assert parts[i] == parts[1..][i - 1]; }
      }
    }
  }

  /** The bytes `_concat_bins` writes: every named part in order, up to the
      first one it cannot open. */
  function Gathered(fs: Files, parts: seq<string>): (r: seq<byte>)
    ensures Openable(fs, parts) ==> r == Contents(fs, parts)
  {
    if parts == [] then []
    else if parts[0] == "" then
      OpenableCons(fs, parts);
      Gathered(fs, parts[1..])
    else if parts[0] !in fs then []
    else
      OpenableCons(fs, parts);
      fs[parts[0]].data + Gathered(fs, parts[1..])
  }

  /** The concatenation of the named parts, when all of them exist. */
  function Contents(fs: Files, parts: seq<string>): seq<byte>
    requires Openable(fs, parts)
  {
    if parts == [] then []
    else
      OpenableCons(fs, parts);
      if parts[0] == "" then Contents(fs, parts[1..])
      else fs[parts[0]].data + Contents(fs, parts[1..])
  }

  /** `_concat_bins(out, *parts)`: `open(out, "wb")` truncates the output first,
      so a part that cannot be opened leaves it holding what was written so far. */
  function Concat(fs: Files, out: string, parts: seq<string>, now: int): (r: Files)
    ensures r.Keys == fs.Keys + {out}
    ensures r[out] == FileEntry(Gathered(fs, parts), now)
    ensures forall n :: n in fs && n != out ==> r[n] == fs[n]
  {
    fs[out := FileEntry(Gathered(fs, parts), now)]
  }

  function ConcatStatus(fs: Files, parts: seq<string>): (st: Status)
    ensures st.Raised? <==> MissingPart(fs, parts).Some?
    ensures st.Raised? ==> st.error == FileNotFound(MissingPart(fs, parts).value)
  {
    match MissingPart(fs, parts)
    case Some(p) => Raised(FileNotFound(p))
    case None => Done
  }

  // ---------------------------------------------------------------------
  // _imagetool_image2_action
  // ---------------------------------------------------------------------

  const BootImage: string := "boot.bin"
  const ApplicationImage: string := "application.bin"

  /** The optional third image, in order of preference. */
  const Image3Candidates: seq<string> :=
    ["application_image3_psram.bin", "application_image3_all.bin", "application_boot_all.bin"]

  /** The first candidate present in the directory. */
  function FirstPresent(fs: Files, cands: seq<string>): (r: Option<string>)
    ensures r.Some? ==> r.value in fs && r.value in cands
    ensures r.None? ==> forall j :: 0 <= j < |cands| ==> cands[j] !in fs
  {
    if cands == [] then None
    else if cands[0] in fs then Some(cands[0])
    else FirstPresent(fs, cands[1..])
  }

  /** The candidate chosen is the first one present: the loop breaks there. */
  lemma {:induction false} FirstPresentIsFirst(fs: Files, cands: seq<string>, k: nat)
    requires k < |cands| && cands[k] in fs
    requires forall j :: 0 <= j < k ==> cands[j] !in fs
    ensures FirstPresent(fs, cands) == Some(cands[k])
  {
    if k > 0 {
      FirstPresentIsFirst(fs, cands[1..], k - 1);
    }
  }

  /** The bytes of the file `name` after padding, or nothing without one. */
  function PaddedImage(fs: Files, name: Option<string>): seq<byte>
    requires name.Some? ==> name.value in fs
  {
    if name.Some? then Padded(fs[name.value].data) else []
  }

  /** The directory once `boot.bin`, `application.bin` and then the first
      third image present have each been padded in place. */
  function PaddedInputs(fs: Files, now: int): (r: Files)
    requires BootImage in fs && ApplicationImage in fs
    ensures r.Keys == fs.Keys
  {
    var fs1 := Pad(Pad(fs, BootImage, now), ApplicationImage, now);
    var img3 := FirstPresent(fs1, Image3Candidates);
    if img3.Some? then Pad(fs1, img3.value, now) else fs1
  }

  /** Padding in place touches each input once: the third image is neither
      `boot.bin` nor `application.bin`. */
  lemma PaddedInputsEffect(fs: Files, now: int)
    requires BootImage in fs && ApplicationImage in fs
    ensures var r := PaddedInputs(fs, now);
      && r[BootImage] == Pad(fs, BootImage, now)[BootImage]
      && r[ApplicationImage] == Pad(fs, ApplicationImage, now)[ApplicationImage]
      && (FirstPresent(fs, Image3Candidates).Some? ==>
            var c := FirstPresent(fs, Image3Candidates).value;
            r[c] == Pad(fs, c, now)[c])
  {
    var fs0 := Pad(fs, BootImage, now);
    var fs1 := Pad(fs0, ApplicationImage, now);
    FirstPresentSameKeys(fs, fs1, Image3Candidates);
    var img3 := FirstPresent(fs1, Image3Candidates);
    assert fs1[BootImage] == fs0[BootImage];
    if img3.Some? {
      var c := img3.value;
      ThirdImageNotInput(c);
      assert fs1[c] == fs[c];
    }
  }

  lemma ThirdImageNotInput(c: string)
    requires c in Image3Candidates
    ensures c != BootImage && c != ApplicationImage
  {
    assert forall x :: x in Image3Candidates ==> x[0] == 'a' && x[11] == '_';
    assert BootImage[0] == 'b' && ApplicationImage[11] == '.';
  }

  /** The plain merge of main.py:988-1032. It runs no external command; it
      succeeds exactly when both `boot.bin` and `application.bin` exist, and
      when it fails it has written nothing. */
  function Merge(fs: Files, useTz: int, now: int): (r: Outcome)
    ensures r.log == []
    ensures r.status == Done <==> BootImage in fs && ApplicationImage in fs
    ensures r.status.Raised? ==> r.files == fs
  {
    if BootImage !in fs then Outcome(fs, [], Raised(FileNotFound(BootImage)))
    else if ApplicationImage !in fs then Outcome(fs, [], Raised(FileNotFound(ApplicationImage)))
    else
      var fs2 := PaddedInputs(fs, now);
      var img3 := FirstPresent(fs2, Image3Candidates);
      var parts := MergeParts(img3);
      assert Openable(fs2, parts) by {
        forall i | 0 <= i < |parts| && parts[i] != "" ensures parts[i] in fs2 {
          if i == 2 { assert parts[i] == img3.value; }
        }
      }
      Outcome(Concat(fs2, PlainMergeName(useTz), parts, now), [], ConcatStatus(fs2, parts))
  }

  /** The merge checks `boot.bin` first, then `application.bin`, and writes
      nothing when either is missing. */
  lemma MergeChecksInputs(fs: Files, useTz: int, now: int)
    ensures BootImage !in fs ==> Merge(fs, useTz, now) == Outcome(fs, [], Raised(FileNotFound("boot.bin")))
    ensures BootImage in fs && ApplicationImage !in fs ==>
              Merge(fs, useTz, now) == Outcome(fs, [], Raised(FileNotFound("application.bin")))
  {
  }

  lemma MergeNameNotAnInput(useTz: int)
    ensures PlainMergeName(useTz) != BootImage && PlainMergeName(useTz) != ApplicationImage
    ensures PlainMergeName(useTz) !in Image3Candidates
  {
    var out := PlainMergeName(useTz);
    assert out[..6] == "flash_";
    assert BootImage[0] != 'f' && ApplicationImage[0] != 'f';
    assert forall c :: c in Image3Candidates ==> c[0] == 'a';
  }

  /** The parts the merge concatenates, once the inputs are padded. */
  function MergeParts(img3: Option<string>): seq<string> {
    [BootImage, ApplicationImage] + (if img3.Some? then [img3.value] else [])
  }

  lemma GatheredMergeParts(fs: Files, img3: Option<string>)
    requires BootImage in fs && ApplicationImage in fs && (img3.Some? ==> img3.value in fs && img3.value != "")
    ensures Gathered(fs, MergeParts(img3))
            == fs[BootImage].data + fs[ApplicationImage].data + (if img3.Some? then fs[img3.value].data else [])
  {
    var parts := MergeParts(img3);
    assert parts[1..][1..] == parts[2..];
    assert Gathered(fs, parts) == fs[BootImage].data + Gathered(fs, parts[1..]);
    assert Gathered(fs, parts[1..]) == fs[ApplicationImage].data + Gathered(fs, parts[2..]);
    if img3.Some? {
      assert parts[2..][1..] == [];
      assert Gathered(fs, parts[2..]) == fs[img3.value].data + [];
    } else {
      assert parts[2..] == [];
    }
  }

  /** What the merge writes: padded boot, padded application, then the padded
      first third image present, if any; its length is a multiple of 4096. */
  lemma MergeOutput(fs: Files, useTz: int, now: int)
    requires BootImage in fs && ApplicationImage in fs
    ensures var img3 := FirstPresent(fs, Image3Candidates);
      var r := Merge(fs, useTz, now).files;
      && PlainMergeName(useTz) in r
      && r[PlainMergeName(useTz)] == FileEntry(Padded(fs[BootImage].data) + Padded(fs[ApplicationImage].data)
                                                 + PaddedImage(fs, img3), now)
      && |r[PlainMergeName(useTz)].data| % Block == 0
  {
    var fs2 := PaddedInputs(fs, now);
    var img3 := FirstPresent(fs2, Image3Candidates);
    FirstPresentSameKeys(fs, fs2, Image3Candidates);
    PaddedInputsEffect(fs, now);
    assert img3.Some? ==> img3.value != "";
    GatheredMergeParts(fs2, img3);
    var a := Padded(fs[BootImage].data);
    var b := Padded(fs[ApplicationImage].data);
    var c := PaddedImage(fs, img3);
    assert Gathered(fs2, MergeParts(img3)) == a + b + c;
    assert |c| % Block == 0;
    AlignedConcat(a, b);
    AlignedConcat(a + b, c);
  }

  /** The merge pads its inputs in place: after a successful merge `boot.bin`,
      `application.bin` and the chosen third image each hold what padding them
      alone would leave. */
  lemma MergePadsInputs(fs: Files, useTz: int, now: int)
    requires BootImage in fs && ApplicationImage in fs
    ensures var r := Merge(fs, useTz, now).files;
      && BootImage in r && r[BootImage] == Pad(fs, BootImage, now)[BootImage]
      && ApplicationImage in r && r[ApplicationImage] == Pad(fs, ApplicationImage, now)[ApplicationImage]
      && (FirstPresent(fs, Image3Candidates).Some? ==>
            var c := FirstPresent(fs, Image3Candidates).value;
            c in r && r[c] == Pad(fs, c, now)[c])
  {
    MergeNameNotAnInput(useTz);
    var fs2 := PaddedInputs(fs, now);
    var img3 := FirstPresent(fs2, Image3Candidates);
    assert Merge(fs, useTz, now).files == Concat(fs2, PlainMergeName(useTz), MergeParts(img3), now);
    PaddedInputsEffect(fs, now);
  }

  lemma AlignedConcat(a: seq<byte>, b: seq<byte>)
    requires |a| % Block == 0 && |b| % Block == 0
    ensures |a + b| % Block == 0
  {
  }

  lemma FirstPresentSameKeys(fs: Files, gs: Files, cands: seq<string>)
    requires fs.Keys == gs.Keys
    ensures FirstPresent(fs, cands) == FirstPresent(gs, cands)
  {
    if cands != [] {
      FirstPresentSameKeys(fs, gs, cands[1..]);
    }
  }

  /** The merge touches nothing but the two inputs, the chosen third image and
      its output: in particular the third-image candidates it did not choose
      are left as they were, so at most one of them is padded and used. */
  lemma MergeFrame(fs: Files, useTz: int, now: int, n: string)
    requires n in fs
    requires n != BootImage && n != ApplicationImage && n != PlainMergeName(useTz)
    requires FirstPresent(fs, Image3Candidates) != Some(n)
    ensures n in Merge(fs, useTz, now).files && Merge(fs, useTz, now).files[n] == fs[n]
  {
    if BootImage in fs && ApplicationImage in fs {
      var fs1 := Pad(Pad(fs, BootImage, now), ApplicationImage, now);
      FirstPresentSameKeys(fs, fs1, Image3Candidates);
    }
  }

  // ---------------------------------------------------------------------
  // _flash_action
  // ---------------------------------------------------------------------

  const Firmware: string := "firmware.bin"
  const IspFirmware: string := "firmware_isp_iq.bin"
  const FcsData: string := "boot_fcs.bin"

  /** The directory after the two fix-ups before combining: `firmware.bin` is
      copied from `application.bin` when it is missing and the application
      image exists, and a missing `firmware_isp_iq.bin` becomes an erased sector.
      The fix-ups never overwrite a file: every existing file keeps its entry;
      `firmware.bin` is added exactly when it was missing and `application.bin`
      exists, as a copy of it; `firmware_isp_iq.bin` always exists afterwards. */
  function Fixups(fs: Files, now: int): (r: Files)
    ensures forall n :: n in fs ==> n in r && r[n] == fs[n]
    ensures Firmware in r <==> Firmware in fs || ApplicationImage in fs
    ensures Firmware !in fs && ApplicationImage in fs ==> r[Firmware] == fs[ApplicationImage]
    ensures IspFirmware in r
    ensures IspFirmware !in fs ==> r[IspFirmware] == FileEntry(Fill(Block), now)
    ensures r.Keys <= fs.Keys + {Firmware, IspFirmware}
  {
    var fs1 := if Firmware !in fs && ApplicationImage in fs then SafeCopy(fs, ApplicationImage, Firmware) else fs;
    Touch(fs1, IspFirmware, now)
  }

  /** The OTA copies made after combining, in order. */
  const OtaPairs: seq<(string, string)> :=
    [("firmware.bin", "ota.bin"), ("firmware_isp_iq.bin", "isp_iq_ota.bin"), ("boot.bin", "boot_ota.bin")]

  /** The entry the checksum tool leaves in the copy `name`. */
  function Checksummed(e: FileEntry, name: string, sums: map<string, seq<byte>>, now: int): FileEntry {
    if name in sums then FileEntry(sums[name], now) else e
  }

  /** The destinations of the copy pairs. */
  predicate IsDestination(pairs: seq<(string, string)>, n: string) {
    exists j :: 0 <= j < |pairs| && pairs[j].1 == n
  }

  /** The OTA loop over `pairs`: each present source is copied, then the copy
      is handed to the checksum tool leniently, whatever the tool returns, and
      the tool stamps it in place. The loop only appends to the log, at most
      one command per pair. */
  function OtaCopies(fs: Files, log: seq<Command>, pairs: seq<(string, string)>, dir: string, tools: Tools,
                     sums: map<string, seq<byte>>, now: int): (r: (Files, seq<Command>))
    ensures |log| <= |r.1| <= |log| + |pairs| && r.1[..|log|] == log
    decreases |pairs|
  {
    if pairs == [] then (fs, log)
    else
      var (fs1, log1) := OtaCopies(fs, log, pairs[..|pairs| - 1], dir, tools, sums, now);
      var (src, dst) := pairs[|pairs| - 1];
      if SafeCopyResult(fs1, src, dst) == Ok(true) then
        (fs1[dst := Checksummed(fs1[src], dst, sums, now)], log1 + [[tools.checksum, Join(dir, dst)]])
      else (fs1, log1)
  }

  /** A file that is no destination is left as it was, and no file other
      than a destination is created. */
  lemma {:induction false} OtaCopiesFrame(fs: Files, log: seq<Command>, pairs: seq<(string, string)>, dir: string,
                                          tools: Tools, sums: map<string, seq<byte>>, now: int)
    ensures var r := OtaCopies(fs, log, pairs, dir, tools, sums, now).0;
      && (forall n :: n in fs && !IsDestination(pairs, n) ==> n in r && r[n] == fs[n])
      && (forall n :: n in r ==> n in fs || IsDestination(pairs, n))
    decreases |pairs|
  {
    if pairs != [] {
      var init := pairs[..|pairs| - 1];
      OtaCopiesFrame(fs, log, init, dir, tools, sums, now);
      DestinationSnoc(pairs, init);
    }
  }

  lemma DestinationSnoc(pairs: seq<(string, string)>, init: seq<(string, string)>)
    requires pairs != [] && init == pairs[..|pairs| - 1]
    ensures forall n :: IsDestination(pairs, n) <==> IsDestination(init, n) || pairs[|pairs| - 1].1 == n
  {
    forall n ensures IsDestination(pairs, n) <==> IsDestination(init, n) || pairs[|pairs| - 1].1 == n {
      if IsDestination(init, n) {
        var j :| 0 <= j < |init| && init[j].1 == n;
        assert pairs[j] == init[j];
      }
      if IsDestination(pairs, n) && pairs[|pairs| - 1].1 != n {
        var j :| 0 <= j < |pairs| && pairs[j].1 == n;
        assert init[j] == pairs[j];
      }
    }
  }

  /** The command combining the image. */
  function CombineCommand(tools: Tools, dir: string, out: string, mapping: string): Command {
    [tools.elf2bin, "combine", tools.partitionTable, Join(dir, out), mapping]
  }

  /** `_flash_action`: fix-ups, the strict `elf2bin combine` (its return code
      and the image it writes are inputs), then the OTA copies. The combine is
      the only strict step: the action fails exactly when `elf2bin combine`
      returns non-zero, and then makes no OTA copy; the combine command comes
      right after the earlier log, and its mapping depends on the chip and on
      `boot_fcs.bin` only. */
  function Flash(fs: Files, log: seq<Command>, cfg: Config, dir: string, tools: Tools,
                 combineRc: int, combined: Option<seq<byte>>, sums: map<string, seq<byte>>, now: int): (r: Outcome)
    ensures var cmd := CombineCommand(tools, dir, CompositeImageName(cfg.useTz, cfg.useWlanMp),
                                      CombineMapping(cfg.mpChip, FcsData in fs));
      && log + [cmd] <= r.log
      && (r.status.Raised? <==> combineRc != 0)
      && (r.status.Raised? ==> r.status.error == CommandFailed(cmd) && r.log == log + [cmd])
  {
    var out := CompositeImageName(cfg.useTz, cfg.useWlanMp);
    var fs1 := Fixups(fs, now);
    assert FcsData in fs1 <==> FcsData in fs;
    var mapping := CombineMapping(cfg.mpChip, FcsData in fs1);
    var cmd := CombineCommand(tools, dir, out, mapping);
    var fs2 := if combined.Some? then fs1[out := FileEntry(combined.value, now)] else fs1;
    match Run(cmd, combineRc, true)
    case Err(e) => Outcome(fs2, log + [cmd], Raised(e))
    case Ok(_) =>
      var (fs3, log3) := OtaCopies(fs2, log + [cmd], OtaPairs, dir, tools, sums, now);
      Outcome(fs3, log3, Done)
  }

  /** The three OTA copies: each destination whose source exists receives
      the source's entry as the checksum tool leaves it; no other file changes. */
  lemma OtaCopiesEffect(fs: Files, log: seq<Command>, dir: string, tools: Tools, sums: map<string, seq<byte>>, now: int)
    ensures var r := OtaCopies(fs, log, OtaPairs, dir, tools, sums, now).0;
      && (forall n :: n in fs && n !in ["ota.bin", "isp_iq_ota.bin", "boot_ota.bin"] ==> n in r && r[n] == fs[n])
      && (Firmware in fs ==> "ota.bin" in r && r["ota.bin"] == Checksummed(fs[Firmware], "ota.bin", sums, now))
      && (IspFirmware in fs ==>
            "isp_iq_ota.bin" in r && r["isp_iq_ota.bin"] == Checksummed(fs[IspFirmware], "isp_iq_ota.bin", sums, now))
      && (BootImage in fs ==> "boot_ota.bin" in r && r["boot_ota.bin"] == Checksummed(fs[BootImage], "boot_ota.bin", sums, now))
      && ("ota.bin" in r <==> "ota.bin" in fs || Firmware in fs)
  {
    var p := OtaPairs;
    assert p[..1] == [("firmware.bin", "ota.bin")] && p[..1][..0] == [];
    assert p[..2] == p[..1] + [("firmware_isp_iq.bin", "isp_iq_ota.bin")] && p[..2][..1] == p[..1];
    assert p[..3] == p && p[..2] == p[..|p| - 1];
    var a := OtaCopies(fs, log, p[..1], dir, tools, sums, now).0;
    var b := OtaCopies(fs, log, p[..2], dir, tools, sums, now).0;
    var c := OtaCopies(fs, log, p, dir, tools, sums, now).0;
    assert OtaCopies(fs, log, p[..1][..0], dir, tools, sums, now) == (fs, log);
    assert p[..1][|p[..1]| - 1] == (Firmware, "ota.bin");
    assert a == OtaStep(fs, Firmware, "ota.bin", sums, now);
    assert b == OtaStep(a, IspFirmware, "isp_iq_ota.bin", sums, now);
    assert c == OtaStep(b, BootImage, "boot_ota.bin", sums, now);
  }

  /** The checksum run on the copy `dst`, when its source `src` exists. */
  function ChecksumRun(fs: Files, src: string, dst: string, dir: string, tools: Tools): seq<Command> {
    if src in fs then [[tools.checksum, Join(dir, dst)]] else []
  }

  /** The OTA loop runs the checksum tool on exactly the copies it makes, in
      the order of the pairs. */
  lemma OtaCopiesLog(fs: Files, log: seq<Command>, dir: string, tools: Tools, sums: map<string, seq<byte>>, now: int)
    ensures OtaCopies(fs, log, OtaPairs, dir, tools, sums, now).1
            == log + ChecksumRun(fs, Firmware, "ota.bin", dir, tools)
                   + ChecksumRun(fs, IspFirmware, "isp_iq_ota.bin", dir, tools)
                   + ChecksumRun(fs, BootImage, "boot_ota.bin", dir, tools)
  {
    var p := OtaPairs;
    assert p[..1] == [("firmware.bin", "ota.bin")] && p[..1][..0] == [];
    assert p[..2] == p[..1] + [("firmware_isp_iq.bin", "isp_iq_ota.bin")] && p[..2][..1] == p[..1];
    assert p[..3] == p && p[..2] == p[..|p| - 1];
    var a := OtaCopies(fs, log, p[..1], dir, tools, sums, now);
    var b := OtaCopies(fs, log, p[..2], dir, tools, sums, now);
    var c := OtaCopies(fs, log, p, dir, tools, sums, now);
    assert OtaCopies(fs, log, p[..1][..0], dir, tools, sums, now) == (fs, log);
    assert p[..1][|p[..1]| - 1] == (Firmware, "ota.bin");
    assert a.0 == OtaStep(fs, Firmware, "ota.bin", sums, now);
    assert a.1 == log + ChecksumRun(fs, Firmware, "ota.bin", dir, tools);
    assert b.0 == OtaStep(a.0, IspFirmware, "isp_iq_ota.bin", sums, now);
    assert b.1 == a.1 + ChecksumRun(fs, IspFirmware, "isp_iq_ota.bin", dir, tools);
    assert c.1 == b.1 + ChecksumRun(fs, BootImage, "boot_ota.bin", dir, tools);
  }

  /** One copy of the OTA loop, as the checksum tool leaves it. */
  function OtaStep(fs: Files, src: string, dst: string, sums: map<string, seq<byte>>, now: int): (r: Files)
    requires src != dst
    ensures src in fs ==> r == fs[dst := Checksummed(fs[src], dst, sums, now)]
    ensures src !in fs ==> r == fs
  {
    if src in fs then fs[dst := Checksummed(fs[src], dst, sums, now)] else fs
  }

  /** After a successful combine, every OTA copy whose source exists holds that
      source's entry as the checksum tool leaves it; `isp_iq_ota.bin` always
      exists, since the fix-ups guarantee its source. */
  lemma FlashOtaCopies(fs: Files, log: seq<Command>, cfg: Config, dir: string, tools: Tools,
                       combined: Option<seq<byte>>, sums: map<string, seq<byte>>, now: int)
    ensures var r := Flash(fs, log, cfg, dir, tools, 0, combined, sums, now).files;
      var f := Fixups(fs, now);
      && IspFirmware in f && "isp_iq_ota.bin" in r
      && r["isp_iq_ota.bin"] == Checksummed(f[IspFirmware], "isp_iq_ota.bin", sums, now)
      && (Firmware in f ==> "ota.bin" in r && r["ota.bin"] == Checksummed(f[Firmware], "ota.bin", sums, now))
      && (BootImage in f ==> "boot_ota.bin" in r && r["boot_ota.bin"] == Checksummed(f[BootImage], "boot_ota.bin", sums, now))
      && ("ota.bin" in r <==> "ota.bin" in fs || Firmware in fs || ApplicationImage in fs)
  {
    var out := CompositeImageName(cfg.useTz, cfg.useWlanMp);
    OtaNotImage(out);
    var f := Fixups(fs, now);
    var fs2 := if combined.Some? then f[out := FileEntry(combined.value, now)] else f;
    var cmd := CombineCommand(tools, dir, out, CombineMapping(cfg.mpChip, FcsData in f));
    OtaCopiesEffect(fs2, log + [cmd], dir, tools, sums, now);
  }

  /** What `_flash_action` leaves in the directory, whatever the combine
      returns: the composite image holds what the combine wrote, every other
      file keeps its entry unless it is an OTA copy, and only the fix-ups, the
      composite image and the OTA copies can be new. When the combine fails,
      the directory is exactly the fix-ups plus what the combine wrote. */
  lemma FlashEffect(fs: Files, log: seq<Command>, cfg: Config, dir: string, tools: Tools,
                    combineRc: int, combined: Option<seq<byte>>, sums: map<string, seq<byte>>, now: int)
    ensures var r := Flash(fs, log, cfg, dir, tools, combineRc, combined, sums, now).files;
      var out := CompositeImageName(cfg.useTz, cfg.useWlanMp);
      var f := Fixups(fs, now);
      var written := if combined.Some? then f[out := FileEntry(combined.value, now)] else f;
      && (combined.Some? ==> out in r && r[out] == FileEntry(combined.value, now))
      && (forall n :: n in fs && n != out && n !in OtaNames ==> n in r && r[n] == fs[n])
      && (forall n :: n in r ==> n in fs || n in {Firmware, IspFirmware, out} || n in OtaNames)
      && (combineRc != 0 ==> r == written)
  {
    var out := CompositeImageName(cfg.useTz, cfg.useWlanMp);
    var f := Fixups(fs, now);
    var written := if combined.Some? then f[out := FileEntry(combined.value, now)] else f;
    var cmd := CombineCommand(tools, dir, out, CombineMapping(cfg.mpChip, FcsData in fs));
    FlashFiles(fs, log, cfg, dir, tools, combineRc, combined, sums, now);
    CombineWritten(fs, out, combined, now);
    if combineRc == 0 {
      OtaNotImage(out);
      OtaFrame(written, log + [cmd], dir, tools, sums, now);
    }
  }

  /** The directory after the fix-ups and the combine's image. */
  lemma CombineWritten(fs: Files, out: string, combined: Option<seq<byte>>, now: int)
    ensures var f := Fixups(fs, now);
      var written := if combined.Some? then f[out := FileEntry(combined.value, now)] else f;
      && (combined.Some? ==> out in written && written[out] == FileEntry(combined.value, now))
      && (forall n :: n in fs && n != out ==> n in written && written[n] == fs[n])
      && (forall n :: n in written ==> n in fs || n in {Firmware, IspFirmware, out})
  {
  }

  /** The files `Flash` leaves: the fix-ups and the combine's image, then the
      OTA copies when the combine succeeds. */
  lemma FlashFiles(fs: Files, log: seq<Command>, cfg: Config, dir: string, tools: Tools,
                   combineRc: int, combined: Option<seq<byte>>, sums: map<string, seq<byte>>, now: int)
    ensures var out := CompositeImageName(cfg.useTz, cfg.useWlanMp);
      var f := Fixups(fs, now);
      var written := if combined.Some? then f[out := FileEntry(combined.value, now)] else f;
      var cmd := CombineCommand(tools, dir, out, CombineMapping(cfg.mpChip, FcsData in fs));
      Flash(fs, log, cfg, dir, tools, combineRc, combined, sums, now).files
        == if combineRc != 0 then written else OtaCopies(written, log + [cmd], OtaPairs, dir, tools, sums, now).0
  {
    assert FcsData in Fixups(fs, now) <==> FcsData in fs;
  }

  /** The commands `_flash_action` runs: `combine`, then, when it succeeds,
      the checksum tool on each OTA copy whose source the fix-ups leave, in
      order; `firmware_isp_iq.bin` always exists by then. */
  lemma FlashLog(fs: Files, log: seq<Command>, cfg: Config, dir: string, tools: Tools,
                 combineRc: int, combined: Option<seq<byte>>, sums: map<string, seq<byte>>, now: int)
    ensures var f := Fixups(fs, now);
      var cmd := CombineCommand(tools, dir, CompositeImageName(cfg.useTz, cfg.useWlanMp),
                                CombineMapping(cfg.mpChip, FcsData in fs));
      var r := Flash(fs, log, cfg, dir, tools, combineRc, combined, sums, now).log;
      && (combineRc != 0 ==> r == log + [cmd])
      && (combineRc == 0 ==>
            r == log + [cmd] + ChecksumRun(f, Firmware, "ota.bin", dir, tools)
                 + [[tools.checksum, Join(dir, "isp_iq_ota.bin")]]
                 + ChecksumRun(f, BootImage, "boot_ota.bin", dir, tools))
  {
    var out := CompositeImageName(cfg.useTz, cfg.useWlanMp);
    var f := Fixups(fs, now);
    var written := if combined.Some? then f[out := FileEntry(combined.value, now)] else f;
    var cmd := CombineCommand(tools, dir, out, CombineMapping(cfg.mpChip, FcsData in fs));
    FlashRuns(fs, log, cfg, dir, tools, combineRc, combined, sums, now);
    if combineRc == 0 {
      OtaNotImage(out);
      OtaCopiesLog(written, log + [cmd], dir, tools, sums, now);
      assert ChecksumRun(written, Firmware, "ota.bin", dir, tools) == ChecksumRun(f, Firmware, "ota.bin", dir, tools);
      assert ChecksumRun(written, BootImage, "boot_ota.bin", dir, tools) == ChecksumRun(f, BootImage, "boot_ota.bin", dir, tools);
      assert IspFirmware in written;
    }
  }

  /** The log `Flash` leaves: the combine command, then the OTA loop's
      commands when the combine succeeds. */
  lemma FlashRuns(fs: Files, log: seq<Command>, cfg: Config, dir: string, tools: Tools,
                  combineRc: int, combined: Option<seq<byte>>, sums: map<string, seq<byte>>, now: int)
    ensures var out := CompositeImageName(cfg.useTz, cfg.useWlanMp);
      var f := Fixups(fs, now);
      var written := if combined.Some? then f[out := FileEntry(combined.value, now)] else f;
      var cmd := CombineCommand(tools, dir, out, CombineMapping(cfg.mpChip, FcsData in fs));
      Flash(fs, log, cfg, dir, tools, combineRc, combined, sums, now).log
        == if combineRc != 0 then log + [cmd] else OtaCopies(written, log + [cmd], OtaPairs, dir, tools, sums, now).1
  {
    assert FcsData in Fixups(fs, now) <==> FcsData in fs;
  }

  lemma OtaFrame(fs: Files, log: seq<Command>, dir: string, tools: Tools, sums: map<string, seq<byte>>, now: int)
    ensures var r := OtaCopies(fs, log, OtaPairs, dir, tools, sums, now).0;
      && (forall n :: n in fs && n !in OtaNames ==> n in r && r[n] == fs[n])
      && (forall n :: n in r ==> n in fs || n in OtaNames)
  {
    OtaCopiesFrame(fs, log, OtaPairs, dir, tools, sums, now);
    forall n | IsDestination(OtaPairs, n) ensures n in OtaNames {
      var j :| 0 <= j < |OtaPairs| && OtaPairs[j].1 == n;
    }
  }

  /** The names the OTA step writes. */
  const OtaNames: seq<string> := ["ota.bin", "isp_iq_ota.bin", "boot_ota.bin"]

  lemma OtaNotImage(out: string)
    requires IsFlashImage(out)
    ensures out != Firmware && out != IspFirmware && out != BootImage && out != "ota.bin"
    ensures out != "isp_iq_ota.bin" && out != "boot_ota.bin" && out != ApplicationImage
  {
    assert out[0] == 'f' && out[1] == 'l';
    assert Firmware[1] == 'i' && IspFirmware[1] == 'i' && BootImage[0] == 'b' && "ota.bin"[0] == 'o';
    assert "isp_iq_ota.bin"[0] == 'i' && "boot_ota.bin"[0] == 'b' && ApplicationImage[0] == 'a';
  }

  // ---------------------------------------------------------------------
  // _pick_flash_image
  // ---------------------------------------------------------------------

  /** The names `glob("flash_*.bin")` returns, in the order of the directory
      listing. */
  function FlashImages(listing: seq<string>): (r: seq<string>)
    ensures forall n :: n in r <==> n in listing && IsFlashImage(n)
  {
    if listing == [] then []
    else if IsFlashImage(listing[0]) then [listing[0]] + FlashImages(listing[1..])
    else FlashImages(listing[1..])
  }

  /** Every flash image before position `m` of the listing is among `earlier`. */
  predicate PrecededOnlyBy(listing: seq<string>, m: nat, earlier: seq<string>)
    requires m <= |listing|
  {
    forall j :: 0 <= j < m && IsFlashImage(listing[j]) ==> listing[j] in earlier
  }

  /** `glob` keeps the listing's order: the `k`-th flash image sits in the
      listing after exactly the flash images that come before it in the result. */
  lemma {:induction false} FlashImagesPosition(listing: seq<string>, k: nat)
    requires k < |FlashImages(listing)|
    ensures exists m :: 0 <= m < |listing| && listing[m] == FlashImages(listing)[k]
                        && PrecededOnlyBy(listing, m, FlashImages(listing)[..k])
  {
    var r := FlashImages(listing);
    var tail := listing[1..];
    var t := FlashImages(tail);
    if IsFlashImage(listing[0]) && k == 0 {
      assert listing[0] == r[0] && PrecededOnlyBy(listing, 0, r[..0]);
    } else {
      var k' := if IsFlashImage(listing[0]) then k - 1 else k;
      assert r == if IsFlashImage(listing[0]) then [listing[0]] + t else t;
      FlashImagesPosition(tail, k');
      var m' :| 0 <= m' < |tail| && tail[m'] == t[k'] && PrecededOnlyBy(tail, m', t[..k']);
      forall j | 0 <= j < m' + 1 && IsFlashImage(listing[j]) ensures listing[j] in r[..k] {
        if j == 0 {
          assert listing[0] == r[0];
        } else {
          assert listing[j] == tail[j - 1] && tail[j - 1] in t[..k'];
          var i :| 0 <= i < k' && t[i] == listing[j];
          assert r[i + k - k'] == t[i];
        }
      }
      assert listing[m' + 1] == r[k] && PrecededOnlyBy(listing, m' + 1, r[..k]);
    }
  }

  /** The first of `cands` with the latest modification time: what a stable
      sort by time, newest first, puts at the front. */
  function Newest(fs: Files, cands: seq<string>): (r: string)
    requires cands != [] && forall c :: c in cands ==> c in fs
    ensures r in cands
    decreases |cands|
  {
    if |cands| == 1 then cands[0]
    else
      var rest := Newest(fs, cands[1..]);
      if fs[cands[0]].mtime >= fs[rest].mtime then cands[0] else rest
  }

  /** `Newest` is newest, and earlier in the listing than any file as new. */
  lemma {:induction false} NewestIsLatest(fs: Files, cands: seq<string>)
    requires cands != [] && forall c :: c in cands ==> c in fs
    ensures forall c :: c in cands ==> fs[c].mtime <= fs[Newest(fs, cands)].mtime
    ensures exists k :: 0 <= k < |cands| && cands[k] == Newest(fs, cands)
                        && forall j :: 0 <= j < k ==> fs[cands[j]].mtime < fs[cands[k]].mtime
    decreases |cands|
  {
    var r := Newest(fs, cands);
    if |cands| == 1 {
      assert cands[0] == r;
    } else {
      var tail := cands[1..];
      NewestIsLatest(fs, tail);
      var rest := Newest(fs, tail);
      forall c | c in cands ensures fs[c].mtime <= fs[r].mtime {
        if c != cands[0] { assert c in tail; }
      }
      if fs[cands[0]].mtime >= fs[rest].mtime {
        assert cands[0] == r;
      } else {
        var k :| 0 <= k < |tail| && tail[k] == rest && forall j :: 0 <= j < k ==> fs[tail[j]].mtime < fs[tail[k]].mtime;
        assert cands[k + 1] == r;
        forall j | 0 <= j < k + 1 ensures fs[cands[j]].mtime < fs[cands[k + 1]].mtime {
          if j > 0 { assert cands[j] == tail[j - 1]; }
        }
      }
    }
  }

  /** `_pick_flash_image`, as a name in the build directory. `listing` is the
      order in which the directory lists its files. */
  function PickFlashImage(fs: Files, cfg: Config, listing: seq<string>): (r: Result<string>)
    requires forall n :: n in listing ==> n in fs
    ensures r.Ok? ==> r.value in fs && IsFlashImage(r.value)
    ensures r.Err? ==> r.error == FileNotFound("flash_*.bin")
  {
    var cand := CompositeImageName(cfg.useTz, cfg.useWlanMp);
    if cand in fs then Ok(cand)
    else
      var cands := FlashImages(listing);
      if cands == [] then Err(FileNotFound("flash_*.bin")) else Ok(Newest(fs, cands))
  }

  /** The image named by the flags wins; otherwise the newest flash image in
      the listing; the pick fails only when there is no flash image at all. */
  lemma PickFlashImageChoice(fs: Files, cfg: Config, listing: seq<string>)
    requires forall n :: n in listing ==> n in fs
    requires forall n :: n in fs && IsFlashImage(n) ==> n in listing
    ensures var cand := CompositeImageName(cfg.useTz, cfg.useWlanMp);
      var r := PickFlashImage(fs, cfg, listing);
      && (cand in fs ==> r == Ok(cand))
      && (r.Err? <==> forall n :: n in fs ==> !IsFlashImage(n))
      && (cand !in fs && r.Ok? ==> forall n :: n in fs && IsFlashImage(n) ==> fs[n].mtime <= fs[r.value].mtime)
      && (cand !in fs && r.Ok? ==>
            exists m :: 0 <= m < |listing| && listing[m] == r.value
                        && forall j :: 0 <= j < m && IsFlashImage(listing[j]) ==> fs[listing[j]].mtime < fs[r.value].mtime)
  {
    var cand := CompositeImageName(cfg.useTz, cfg.useWlanMp);
    var cands := FlashImages(listing);
    if cand !in fs && cands != [] {
      NewestIsLatest(fs, cands);
      var v := Newest(fs, cands);
      var k :| 0 <= k < |cands| && cands[k] == v && forall j :: 0 <= j < k ==> fs[cands[j]].mtime < fs[cands[k]].mtime;
      FlashImagesPosition(listing, k);
      var m :| 0 <= m < |listing| && listing[m] == cands[k] && PrecededOnlyBy(listing, m, cands[..k]);
      forall j | 0 <= j < m && IsFlashImage(listing[j]) ensures fs[listing[j]].mtime < fs[v].mtime {
        var i :| 0 <= i < k && cands[i] == listing[j];
      }
    }
    if cand in fs {
      assert IsFlashImage(cand);
    }
  }

  // ---------------------------------------------------------------------
  // upload_amebapro2
  // ---------------------------------------------------------------------

  const FlashLoader: string := "flash_loader_nor.bin"

  /** The two burner invocations, software download mode (`-d p2m`) first. */
  function Attempts(tools: Tools, port: string, baud: string, image: string): (r: seq<Command>)
    ensures |r| == 2 && r[0] == r[1] + ["-d", "p2m"]
    ensures |r[1]| == 11 && r[1][0] == tools.burner
    ensures r[1][1] == "-p" && r[1][2] == port
    ensures r[1][3] == "-b" && r[1][4] == baud
    ensures r[1][5] == "-f" && r[1][6] == image
    ensures r[1][7..] == ["-U", "-v", "pro2", "-r"]
  {
    var plain := [tools.burner, "-p", port, "-b", baud, "-f", image, "-U", "-v", "pro2", "-r"];
    [plain + ["-d", "p2m"], plain]
  }

  /** The number of attempts made: up to and including the first that returns 0. */
  function AttemptsMade(rcs: seq<int>): (k: nat)
    ensures k <= |rcs| && (rcs != [] ==> k > 0)
    ensures forall j :: 0 <= j < k - 1 ==> rcs[j] != 0
    ensures k < |rcs| ==> rcs[k - 1] == 0
  {
    if rcs == [] then 0
    else if rcs[0] == 0 then 1
    else 1 + AttemptsMade(rcs[1..])
  }

  /** Whether some attempt succeeded. */
  predicate Uploaded(rcs: seq<int>) {
    exists j :: 0 <= j < |rcs| && rcs[j] == 0
  }

  /** `upload_amebapro2`: settings, image pick, flash loader, then the attempts.
      `loader` is the flash loader next to the burner, if it exists; `rcs` the
      burner's return code for each attempt. */
  function Upload(fs: Files, log: seq<Command>, st: Settings, cfg: Config, dir: string, tools: Tools,
                  listing: seq<string>, loader: Option<seq<byte>>, rcs: seq<int>, now: int): (r: Outcome)
    requires forall n :: n in listing ==> n in fs
    requires |rcs| == 2
    ensures r.status == Done <==>
              PickFlashImage(fs, cfg, listing).Ok? && (FlashLoader in fs || loader.Some?) && Uploaded(rcs)
    ensures PickFlashImage(fs, cfg, listing).Err? ==> r == Outcome(fs, log, Raised(PickFlashImage(fs, cfg, listing).error))
    ensures PickFlashImage(fs, cfg, listing).Ok? && FlashLoader !in fs && loader.None? ==>
              r == Outcome(fs, log, Raised(FileNotFound(tools.flashLoader)))
    ensures |log| <= |r.log| <= |log| + 2 && r.log[..|log|] == log
  {
    var port := UploadPort(st);
    var baud := UploadSpeed(st);
    match PickFlashImage(fs, cfg, listing)
    case Err(e) => Outcome(fs, log, Raised(e))
    case Ok(name) =>
      if FlashLoader !in fs && loader.None? then Outcome(fs, log, Raised(FileNotFound(tools.flashLoader)))
      else
        var fs1 := if FlashLoader in fs then fs else fs[FlashLoader := FileEntry(loader.value, now)];
        var k := AttemptsMade(rcs);
        var tried := Attempts(tools, port, baud, Join(dir, name))[..k];
        Outcome(fs1, log + tried, if Uploaded(rcs) then Done else Raised(UploadFailed))
  }

  /** The upload tries `-d p2m` first and the plain command second, stops at the
      first attempt that returns 0, and fails only when both fail. */
  lemma UploadAttempts(fs: Files, log: seq<Command>, st: Settings, cfg: Config, dir: string, tools: Tools,
                       listing: seq<string>, loader: Option<seq<byte>>, rcs: seq<int>, now: int)
    requires forall n :: n in listing ==> n in fs
    requires |rcs| == 2
    requires PickFlashImage(fs, cfg, listing).Ok? && (FlashLoader in fs || loader.Some?)
    ensures var o := Upload(fs, log, st, cfg, dir, tools, listing, loader, rcs, now);
      var cmds := Attempts(tools, UploadPort(st), UploadSpeed(st), Join(dir, PickFlashImage(fs, cfg, listing).value));
      && (o.status == Done <==> rcs[0] == 0 || rcs[1] == 0)
      && (o.status != Done ==> o.status == Raised(UploadFailed))
      && (rcs[0] == 0 ==> o.log == log + [cmds[0]])
      && (rcs[0] != 0 ==> o.log == log + cmds)
  {
    var cmds := Attempts(tools, UploadPort(st), UploadSpeed(st), Join(dir, PickFlashImage(fs, cfg, listing).value));
    if rcs[0] != 0 {
      assert AttemptsMade(rcs[1..]) == 1;
      assert cmds[..2] == cmds;
    }
    assert Uploaded(rcs) <==> rcs[0] == 0 || rcs[1] == 0;
  }

  /** An existing flash loader is never replaced; a missing one is copied with
      a fresh time stamp; nothing else in the directory changes. */
  lemma UploadFiles(fs: Files, log: seq<Command>, st: Settings, cfg: Config, dir: string, tools: Tools,
                    listing: seq<string>, loader: Option<seq<byte>>, rcs: seq<int>, now: int)
    requires forall n :: n in listing ==> n in fs
    requires |rcs| == 2
    ensures var r := Upload(fs, log, st, cfg, dir, tools, listing, loader, rcs, now).files;
      && (forall n :: n in fs ==> n in r && r[n] == fs[n])
      && r.Keys <= fs.Keys + {FlashLoader}
      && (FlashLoader !in fs && loader.Some? && PickFlashImage(fs, cfg, listing).Ok? ==>
            r[FlashLoader] == FileEntry(loader.value, now))
  {
  }
}

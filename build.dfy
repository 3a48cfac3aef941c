/**
  The build directory as the script changes it, step by step: one method per
  action of platform-amebapro2/builder/main.py, each proved to leave the
  directory and the command log as the matching function of `Actions` says.
 */
module Build {
  import opened Common
  import opened Flags
  import opened Paths
  import opened Images
  import opened Actions

  /** Gathering one more part, while none so far was missing. */
  lemma {:induction false} GatheredSnoc(fs: Files, ps: seq<string>, p: string)
    requires MissingPart(fs, ps).None?
    ensures Gathered(fs, ps + [p]) == Gathered(fs, ps) + (if p != "" && p in fs then fs[p].data else [])
    ensures MissingPart(fs, ps + [p]) == if p != "" && p !in fs then Some(p) else None
    decreases |ps|
  {
    if ps == [] {
      assert [p][1..] == [];
    } else {
      assert (ps + [p])[1..] == ps[1..] + [p];
      GatheredSnoc(fs, ps[1..], p);
    }
  }

  /** Once a part is missing, further parts change nothing. */
  lemma {:induction false} GatheredStops(fs: Files, ps: seq<string>, rest: seq<string>)
    requires MissingPart(fs, ps).Some?
    ensures Gathered(fs, ps + rest) == Gathered(fs, ps)
    ensures MissingPart(fs, ps + rest) == MissingPart(fs, ps)
    decreases |ps|
  {
    assert (ps + rest)[1..] == ps[1..] + rest;
    if ps[0] == "" || ps[0] in fs {
      GatheredStops(fs, ps[1..], rest);
    }
  }

  /** One step of `_concat_bins`' loop that finds its part, while no part so
      far was missing. */
  lemma ConcatKeepsGoing(fs: Files, parts: seq<string>, i: nat)
    requires i < |parts| && MissingPart(fs, parts[..i]).None? && (parts[i] == "" || parts[i] in fs)
    ensures MissingPart(fs, parts[..i + 1]).None?
    ensures parts[i] == "" ==> Gathered(fs, parts[..i + 1]) == Gathered(fs, parts[..i])
    ensures parts[i] != "" ==> Gathered(fs, parts[..i + 1]) == Gathered(fs, parts[..i]) + fs[parts[i]].data
  {
    var pre, p := parts[..i], parts[i];
    assert parts[..i + 1] == pre + [p];
    GatheredSnoc(fs, pre, p);
  }

  /** The step of `_concat_bins`' loop that cannot open its part: the part is
      the first missing one, and the output keeps what was written so far. */
  lemma ConcatStops(fs: Files, parts: seq<string>, i: nat)
    requires i < |parts| && MissingPart(fs, parts[..i]).None? && parts[i] != "" && parts[i] !in fs
    ensures MissingPart(fs, parts) == Some(parts[i]) && Gathered(fs, parts) == Gathered(fs, parts[..i])
  {
    var pre, p, rest := parts[..i], parts[i], parts[i + 1..];
    var upto := pre + [p];
    assert upto + rest == parts;
    GatheredSnoc(fs, pre, p);
    GatheredStops(fs, upto, rest);
  }

  lemma {:induction false} AttemptsMadeAt(rcs: seq<int>, i: nat)
    requires i < |rcs| && rcs[i] == 0
    requires forall j :: 0 <= j < i ==> rcs[j] != 0
    ensures AttemptsMade(rcs) == i + 1
    decreases i
  {
    if i > 0 {
      AttemptsMadeAt(rcs[1..], i - 1);
    }
  }

  /** One more pair of the OTA copy loop. */
  lemma OtaCopiesStep(fs: Files, log: seq<Command>, pairs: seq<(string, string)>, i: nat, dir: string, tools: Tools,
                      sums: map<string, seq<byte>>, now: int)
    requires i < |pairs|
    ensures var (fs1, log1) := OtaCopies(fs, log, pairs[..i], dir, tools, sums, now);
      var (src, dst) := pairs[i];
      OtaCopies(fs, log, pairs[..i + 1], dir, tools, sums, now)
      == if SafeCopyResult(fs1, src, dst) == Ok(true)
         then (fs1[dst := Checksummed(fs1[src], dst, sums, now)], log1 + [[tools.checksum, Join(dir, dst)]])
         else (fs1, log1)
  {
    assert pairs[..i + 1][..i] == pairs[..i];
    assert pairs[..i + 1][i] == pairs[i];
  }

  class BuildDir {
    /** The files of the build directory. */
    var files: Files
    /** The external commands run so far, in order. */
    var log: seq<Command>
    /** The build directory's path. */
    const dir: string
    const tools: Tools
    /** The time stamp every write in this run receives. */
    const now: int

    constructor(dir: string, tools: Tools, files: Files, now: int)
      ensures this.dir == dir && this.tools == tools && this.now == now
      ensures this.files == files && log == []
    {
      this.dir := dir;
      this.tools := tools;
      this.now := now;
      this.files := files;
      this.log := [];
    }

    /** `_run(cmd, strict)`; `rc` is the return code the command gives. */
    method RunTool(cmd: Command, rc: int, strict: bool) returns (r: Result<int>)
      modifies this`log
      ensures log == old(log) + [cmd]
      ensures r == Run(cmd, rc, strict)
    {
      log := log + [cmd];
      if strict && rc != 0 {
        return Err(CommandFailed(cmd));
      }
      return Ok(rc);
    }

    /** `_pad_to_4k(path)`: appends 0xFF one byte at a time up to the next
        4096-byte boundary; `os.stat` fails on a missing file. */
    method PadTo4k(name: string) returns (st: Status)
      modifies this`files
      ensures name !in old(files) ==> st == Raised(FileNotFound(name)) && files == old(files)
      ensures name in old(files) ==> st == Done && files == Pad(old(files), name, now)
    {
      if name !in files {
        return Raised(FileNotFound(name));
      }
      var d := files[name].data;
      var sz := |d|;
      var newsize := if sz != 0 then ((sz - 1) / 4096 + 1) * 4096 else 0;
      var pad := newsize - sz;
      assert newsize == AlignedSize(sz);
      if pad > 0 {
        assert d + Fill(0) == d;
        assert old(files)[name := FileEntry(d, old(files)[name].mtime)] == old(files);
        var i := 0;
        while i < pad
          invariant 0 <= i <= pad
          invariant files == old(files)[name := FileEntry(d + Fill(i), if i == 0 then old(files)[name].mtime else now)]
        {
          assert d + Fill(i) + [Erased] == d + Fill(i + 1);
          files := files[name := FileEntry(files[name].data + [Erased], now)];
          i := i + 1;
        }
      } else {
        assert d + Fill(0) == d;
      }
      return Done;
    }

    /** `_touch_4k(path)` */
    method Touch4k(name: string)
      modifies this`files
      ensures files == Touch(old(files), name, now)
    {
      if name !in files {
        files := files[name := FileEntry(Fill(4096), now)];
      }
    }

    /** `_safe_copy(src, dst)` */
    method SafeCopy(src: string, dst: string) returns (r: Result<bool>)
      modifies this`files
      ensures r == SafeCopyResult(old(files), src, dst)
      ensures files == Actions.SafeCopy(old(files), src, dst)
    {
      if src in files {
        if src == dst {
          return Err(SameFile(src));
        }
        files := files[dst := files[src]];
        return Ok(true);
      }
      return Ok(false);
    }

    /** `_concat_bins(out, *parts)`. The output is not one of the parts: the
        script never reads a file it is writing. */
    method ConcatBins(out: string, parts: seq<string>) returns (st: Status)
      requires out !in parts
      modifies this`files
      ensures files == Concat(old(files), out, parts, now)
      ensures st == ConcatStatus(old(files), parts)
    {
      ghost var fs := files;
      files := files[out := FileEntry([], now)];
      var i := 0;
      while i < |parts|
        invariant 0 <= i <= |parts|
        invariant MissingPart(fs, parts[..i]).None?
        invariant files == fs[out := FileEntry(Gathered(fs, parts[..i]), now)]
      {
        var p := parts[i];
        assert p != out && (p in files <==> p in fs);
        if p != "" && p !in files {
          ConcatStops(fs, parts, i);
          return Raised(FileNotFound(p));
        }
        ConcatKeepsGoing(fs, parts, i);
        if p != "" {
          assert files[p] == fs[p] && files[out].data == Gathered(fs, parts[..i]);
          files := files[out := FileEntry(files[out].data + files[p].data, now)];
        }
        i := i + 1;
      }
      assert parts[..i] == parts;
      return Done;
    }

    /** `_imagetool_image2_action`: checks both inputs, pads them in place,
        pads the first third image present and concatenates. */
    method ImagetoolImage2(useTz: int) returns (st: Status)
      modifies this`files
      ensures files == Merge(old(files), useTz, now).files
      ensures st == Merge(old(files), useTz, now).status
    {
      var outName := if On(useTz) then "flash_tz.bin" else "flash_ntz.bin";
      if BootImage !in files {
        return Raised(FileNotFound(BootImage));
      }
      if ApplicationImage !in files {
        return Raised(FileNotFound(ApplicationImage));
      }
      ghost var fs0 := files;
      var _ := PadTo4k(BootImage);
      var _ := PadTo4k(ApplicationImage);
      ghost var fs1 := files;
      assert fs1 == Pad(Pad(fs0, BootImage, now), ApplicationImage, now);
      var candidates := Image3Candidates;
      var img3: Option<string> := None;
      var i := 0;
      while i < |candidates|
        invariant 0 <= i <= |candidates|
        invariant files == fs1 && img3.None?
        invariant FirstPresent(fs1, candidates) == FirstPresent(fs1, candidates[i..])
      {
        if candidates[i] in files {
          img3 := Some(candidates[i]);
          var _ := PadTo4k(candidates[i]);
          break;
        }
        assert candidates[i..][1..] == candidates[i + 1..];
        i := i + 1;
      }
      assert img3 == FirstPresent(fs1, candidates);
      assert files == PaddedInputs(fs0, now);
      FirstPresentSameKeys(fs1, files, candidates);
      MergeNameNotAnInput(useTz);
      var parts := [BootImage, ApplicationImage] + (if img3.Some? then [img3.value] else []);
      st := ConcatBins(outName, parts);
    }

    /** `_flash_action`: the combine's return code and the image it writes are
        inputs, as are the checksum tool's return code, which is ignored, and
        what it leaves in each copy it stamps. */
    method FlashAction(cfg: Config, combineRc: int, combined: Option<seq<byte>>, checksumRc: int,
                       sums: map<string, seq<byte>>) returns (st: Status)
      modifies this`files, this`log
      ensures Outcome(files, log, st) == Flash(old(files), old(log), cfg, dir, tools, combineRc, combined, sums, now)
    {
      var out := CompositeImageName(cfg.useTz, cfg.useWlanMp);
      if Firmware !in files && ApplicationImage in files {
        var _ := SafeCopy(ApplicationImage, Firmware);
      }
      if IspFirmware !in files {
        Touch4k(IspFirmware);
      }
      assert files == Fixups(old(files), now);
      var mapping := CombineMapping(cfg.mpChip, FcsData in files);
      var cmd := [tools.elf2bin, "combine", tools.partitionTable, Join(dir, out), mapping];
      if combined.Some? {
        files := files[out := FileEntry(combined.value, now)];
      }
      var r := RunTool(cmd, combineRc, true);
      if r.Err? {
        return Raised(r.error);
      }
      CopyOtaImages(checksumRc, sums);
      return Done;
    }

    /** The loop of `_flash_action` that copies the OTA images and stamps
        each copy with the checksum tool, whose result is ignored; `sums` is
        what the tool leaves in each copy it rewrites. */
    method CopyOtaImages(checksumRc: int, sums: map<string, seq<byte>>)
      modifies this`files, this`log
      ensures (files, log) == OtaCopies(old(files), old(log), OtaPairs, dir, tools, sums, now)
    {
      var pairs := OtaPairs;
      for i := 0 to |pairs|
        invariant (files, log) == OtaCopies(old(files), old(log), pairs[..i], dir, tools, sums, now)
      {
        OtaCopiesStep(old(files), old(log), pairs, i, dir, tools, sums, now);
        var (src, dst) := pairs[i];
        ghost var before := files;
        var copied := SafeCopy(src, dst);
        if copied == Ok(true) {
          var _ := RunTool([tools.checksum, Join(dir, dst)], checksumRc, false);
          if dst in sums {
            files := files[dst := FileEntry(sums[dst], now)];
          }
          assert files == before[dst := Checksummed(before[src], dst, sums, now)];
        }
      }
      assert pairs[..|pairs|] == pairs;
    }

    /** `upload_amebapro2`: `listing` is the directory listing the glob
        follows, `loader` the flash loader beside the burner (if it exists),
        `rcs` the burner's return code for each attempt. */
    method Upload(st: Settings, cfg: Config, listing: seq<string>, loader: Option<seq<byte>>, rcs: seq<int>)
      returns (status: Status)
      requires forall n :: n in listing ==> n in files
      requires |rcs| == 2
      modifies this`files, this`log
      ensures Outcome(files, log, status) == Actions.Upload(old(files), old(log), st, cfg, dir, tools, listing, loader, rcs, now)
    {
      var port := UploadPort(st);
      var baud := UploadSpeed(st);
      var picked := PickFlashImage(files, cfg, listing);
      if picked.Err? {
        return Raised(picked.error);
      }
      var image := Join(dir, picked.value);
      if FlashLoader !in files {
        if loader.None? {
          return Raised(FileNotFound(tools.flashLoader));
        }
        files := files[FlashLoader := FileEntry(loader.value, now)];
      }
      var ok := RunAttempts(Attempts(tools, port, baud, image), rcs);
      status := if ok then Done else Raised(UploadFailed);
    }

    /** The attempt loop of `upload_amebapro2`: each attempt is logged, and
        the first one that exits with 0 ends the loop. */
    method RunAttempts(attempts: seq<Command>, rcs: seq<int>) returns (ok: bool)
      requires |attempts| == |rcs|
      modifies this`log
      ensures ok == Uploaded(rcs)
      ensures log == old(log) + attempts[..AttemptsMade(rcs)]
    {
      var i := 0;
      while i < |attempts|
        invariant 0 <= i <= |attempts|
        invariant forall j :: 0 <= j < i ==> rcs[j] != 0
        invariant log == old(log) + attempts[..i]
      {
        var rc := RunTool(attempts[i], rcs[i], false);
        assert attempts[..i + 1] == attempts[..i] + [attempts[i]];
        if rc.value == 0 {
          AttemptsMadeAt(rcs, i);
          return true;
        }
        i := i + 1;
      }
      assert attempts[..|attempts|] == attempts;
      if rcs != [] {
        assert AttemptsMade(rcs) == |rcs|;
      }
      return false;
    }
  }
}

/**
  The pure parts of image assembly in platform-amebapro2/builder/main.py:
  4 KB alignment of an image (`_pad_to_4k`, main.py:739-747), the names of
  the flash images (main.py:763-766, 998, 1037, 1059-1062, the `flash_*.bin`
  glob of main.py:1067) and the partition mapping handed to `elf2bin combine`
  (main.py:777-783).
 */
module Images {
  import opened Common
  import opened Flags

  // ---------------------------------------------------------------------
  // 4 KB alignment
  // ---------------------------------------------------------------------

  /** The flash sector size every image is aligned to. */
  const Block: nat := 4096

  /** `(((sz - 1) >> 12) + 1) << 12 if sz else 0`: the size a file is padded to. */
  function AlignedSize(sz: nat): (n: nat)
    ensures n % Block == 0
    ensures sz <= n < sz + Block
    ensures n == 0 <==> sz == 0
  {
    if sz == 0 then 0 else ((sz - 1) / Block + 1) * Block
  }

  /** The padded size is the least multiple of 4096 that is not below the size. */
  lemma AlignedSizeIsLeast(sz: nat, m: nat)
    requires m % Block == 0 && sz <= m
    ensures AlignedSize(sz) <= m
  {
    if sz > 0 {
      var q := (sz - 1) / Block;
      var j := m / Block;
      assert m == j * Block;
      assert q * Block <= sz - 1 < m;
      assert q < j;
    }
  }

  /** An already aligned size is its own padded size. */
  lemma AlignedSizeOfAligned(sz: nat)
    requires sz % Block == 0
    ensures AlignedSize(sz) == sz
  {
    AlignedSizeIsLeast(sz, sz);
  }

  /** The bytes of a file after `_pad_to_4k`. */
  function Padded(d: seq<byte>): (r: seq<byte>)
    ensures |r| == AlignedSize(|d|)
    ensures r[..|d|] == d
    ensures forall i :: |d| <= i < |r| ==> r[i] == Erased
  {
    d + Fill(AlignedSize(|d|) - |d|)
  }

  /** Padding a file whose size is already a multiple of 4096 changes nothing;
      in particular an empty file stays empty. */
  lemma PaddedAlignedUnchanged(d: seq<byte>)
    requires |d| % Block == 0
    ensures Padded(d) == d
  {
    AlignedSizeOfAligned(|d|);
    assert Padded(d) == d[..|d|];
  }

  /** Padding twice is padding once. */
  lemma PaddedIdempotent(d: seq<byte>)
    ensures Padded(Padded(d)) == Padded(d)
  {
    PaddedAlignedUnchanged(Padded(d));
  }

  /** A file one byte short of a 4096 boundary gains exactly one 0xFF byte. */
  lemma PaddedOneShort(d: seq<byte>, k: nat)
    requires k >= 1 && |d| == k * Block - 1
    ensures Padded(d) == d + [Erased]
  {
    var n := |d| + 1;
    assert n % Block == 0;
    AlignedSizeIsLeast(|d|, n);
    var r := Padded(d);
    assert |r| == n;
    assert r == r[..|d|] + [r[|d|]];
  }

  // ---------------------------------------------------------------------
  // Image names
  // ---------------------------------------------------------------------

  /** A name the glob `flash_*.bin` matches in the build directory. */
  predicate IsFlashImage(name: string) {
    |name| >= 10 && StartsWith(name, "flash_") && EndsWith(name, ".bin") && '/' !in name
  }

  /** The composite image of `_flash_action` and `_pick_flash_image`:
      `flash_tz` or `flash_ntz` by USE_TZ, `_mp` when USE_WLANMP, then `.bin`. */
  function CompositeImageName(useTz: int, useWlanMp: int): (r: string)
    ensures IsFlashImage(r)
    ensures StartsWith(r, "flash_tz") <==> On(useTz)
    ensures EndsWith(r, "_mp.bin") <==> On(useWlanMp)
  {
    var tgt := if On(useTz) then "flash_tz" else "flash_ntz";
    var tgt' := if On(useWlanMp) then tgt + "_mp" else tgt;
    var r := tgt' + ".bin";
    assert r[..6] == "flash_";
    assert r[|r| - 4..] == ".bin";
    assert r[6] == (if On(useTz) then 't' else 'n');
    assert On(useTz) ==> r[..8] == "flash_tz";
    assert r[|r| - 6] == (if On(useWlanMp) then 'm' else 't');
    assert On(useWlanMp) ==> r[|r| - 7..] == "_mp.bin";
    r
  }

  /** The output of the plain merge: `flash_tz.bin` or `flash_ntz.bin` by USE_TZ
      alone; USE_WLANMP plays no part (main.py:998). */
  function PlainMergeName(useTz: int): (r: string)
    ensures IsFlashImage(r)
    ensures StartsWith(r, "flash_tz") <==> On(useTz)
    ensures !EndsWith(r, "_mp.bin")
  {
    var r := if On(useTz) then "flash_tz.bin" else "flash_ntz.bin";
    assert r[..6] == "flash_" && r[|r| - 4..] == ".bin";
    assert r[6] == (if On(useTz) then 't' else 'n') && r[|r| - 6] == 't';
    r
  }

  /** The file the SCons merge command declares as its target, whatever the
      flags (main.py:1037). */
  const MergeTarget: string := "flash_ntz.bin"

  /** The composite name tells both switches apart: two configurations share a
      composite image exactly when they agree on both switches. */
  lemma CompositeNameDeterminesFlags(tz1: int, mp1: int, tz2: int, mp2: int)
    ensures CompositeImageName(tz1, mp1) == CompositeImageName(tz2, mp2)
            <==> (On(tz1) <==> On(tz2)) && (On(mp1) <==> On(mp2))
  {
  }

  /** The plain merge writes the image the upload later looks for only when
      USE_WLANMP is off. */
  lemma MergeNameMatchesCompositeOnlyWithoutWlanMp(useTz: int, useWlanMp: int)
    ensures PlainMergeName(useTz) == CompositeImageName(useTz, useWlanMp) <==> !On(useWlanMp)
  {
    var c := CompositeImageName(useTz, useWlanMp);
    if On(useWlanMp) {
      assert EndsWith(c, "_mp.bin");
    }
  }

  /** The merge's declared target is the file it writes only when USE_TZ is off. */
  lemma MergeTargetMatchesOnlyWithoutTz(useTz: int)
    ensures PlainMergeName(useTz) == MergeTarget <==> !On(useTz)
  {
    if On(useTz) {
      assert PlainMergeName(useTz)[6] != MergeTarget[6];
    }
  }

  // ---------------------------------------------------------------------
  // The combine mapping
  // ---------------------------------------------------------------------

  /** One `PARTITION=file` pair of the mapping. */
  datatype Entry = Entry(partition: string, file: string)

  /** The partitions of an MP chip (CONFIG_MPCHIP on), before the optional FCS data. */
  const MpChipEntries: seq<Entry> :=
    [Entry("CER_TBL", "certable.bin"), Entry("KEY_CER1", "certificate.bin"), Entry("PT_BL_PRI", "boot.bin"),
     Entry("PT_FW1", "firmware.bin"), Entry("PT_ISP_IQ", "firmware_isp_iq.bin")]

  const FcsEntry: Entry := Entry("PT_FCSDATA", "boot_fcs.bin")

  /** The partitions of an engineering-sample chip (CONFIG_MPCHIP off). */
  const SampleChipEntries: seq<Entry> :=
    [Entry("BOOT", "boot.bin"), Entry("FW1", "firmware.bin"), Entry("PT_ISP_IQ", "firmware_isp_iq.bin")]

  /** The partitions `elf2bin combine` is asked to fill, in order. */
  function MappingEntries(mpChip: int, fcsPresent: bool): (es: seq<Entry>)
    ensures es != []
  {
    if On(mpChip) then MpChipEntries + (if fcsPresent then [FcsEntry] else [])
    else SampleChipEntries
  }

  function EntryText(e: Entry): string {
    e.partition + "=" + e.file
  }

  function EntryTexts(es: seq<Entry>): (ts: seq<string>)
    ensures |ts| == |es|
    ensures forall i :: 0 <= i < |es| ==> ts[i] == EntryText(es[i])
  {
    if es == [] then [] else [EntryText(es[0])] + EntryTexts(es[1..])
  }

  /** `",".join(f"{p}={f}" for p, f in entries)` */
  function RenderMapping(es: seq<Entry>): string
    requires es != []
  {
    JoinWith(EntryTexts(es), ',')
  }

  /** The mapping string of main.py:778-783: with CONFIG_MPCHIP the five MP
      partitions, then `,PT_FCSDATA=boot_fcs.bin` when `boot_fcs.bin` exists;
      otherwise the three sample-chip partitions. */
  function CombineMapping(mpChip: int, fcsPresent: bool): (m: string)
    ensures ReadsBackAs(m, MappingEntries(mpChip, fcsPresent))
  {
    MappingEntriesPlain(mpChip, fcsPresent);
    ParseRenderMapping(MappingEntries(mpChip, fcsPresent));
    RenderMapping(MappingEntries(mpChip, fcsPresent))
  }

  /** `m` reads back as exactly the entries `es`, in order. */
  predicate ReadsBackAs(m: string, es: seq<Entry>) {
    |ParseMapping(m)| == |es| && forall i :: 0 <= i < |es| ==> ParseMapping(m)[i] == Some(es[i])
  }

  /** How the mapping reads back: comma-separated pairs split at their `=`. */
  function ParseMapping(m: string): seq<Option<Entry>> {
    var items := Split(m, ',');
    seq(|items|, i requires 0 <= i < |items| => ParseEntry(items[i]))
  }

  function ParseEntry(item: string): Option<Entry> {
    var kv := Split(item, '=');
    if |kv| == 2 then Some(Entry(kv[0], kv[1])) else None
  }

  /** Text free of the two separators of the mapping. */
  predicate Clean(s: string) {
    ',' !in s && '=' !in s
  }

  /** A pair that can be written without ambiguity. */
  predicate Plain(e: Entry) {
    Clean(e.partition) && Clean(e.file)
  }

  lemma ParseEntryText(e: Entry)
    requires Plain(e)
    ensures ParseEntry(EntryText(e)) == Some(e)
    ensures ',' !in EntryText(e)
  {
    SplitJoin([e.partition, e.file], '=');
    assert JoinWith([e.partition, e.file], '=') == EntryText(e);
  }

  /** Reading back a rendered mapping gives its pairs. */
  lemma ParseRenderMapping(es: seq<Entry>)
    requires es != []
    requires forall i :: 0 <= i < |es| ==> Plain(es[i])
    ensures |ParseMapping(RenderMapping(es))| == |es|
    ensures forall i :: 0 <= i < |es| ==> ParseMapping(RenderMapping(es))[i] == Some(es[i])
  {
    var ts := EntryTexts(es);
    forall i | 0 <= i < |es| ensures ParseEntry(ts[i]) == Some(es[i]) && ',' !in ts[i] {
      ParseEntryText(es[i]);
    }
    SplitJoin(ts, ',');
  }

  lemma CertificateNamesClean()
    ensures Clean("CER_TBL") && Clean("certable.bin") && Clean("KEY_CER1") && Clean("certificate.bin")
  {
  }

  lemma FirmwareNamesClean()
    ensures Clean("PT_BL_PRI") && Clean("boot.bin") && Clean("PT_FW1") && Clean("firmware.bin")
    ensures Clean("PT_ISP_IQ") && Clean("firmware_isp_iq.bin") && Clean("PT_FCSDATA") && Clean("boot_fcs.bin")
  {
  }

  lemma MpChipEntriesPlain()
    ensures forall e :: e in MpChipEntries ==> Plain(e)
    ensures Plain(FcsEntry)
  {
    CertificateNamesClean();
    FirmwareNamesClean();
  }

  lemma SampleChipEntriesPlain()
    ensures forall e :: e in SampleChipEntries ==> Plain(e)
  {
    assert Clean("BOOT") && Clean("boot.bin") && Clean("FW1") && Clean("firmware.bin");
    assert Clean("PT_ISP_IQ") && Clean("firmware_isp_iq.bin");
  }

  lemma MappingEntriesPlain(mpChip: int, fcsPresent: bool)
    ensures forall i :: 0 <= i < |MappingEntries(mpChip, fcsPresent)| ==> Plain(MappingEntries(mpChip, fcsPresent)[i])
  {
    var es := MappingEntries(mpChip, fcsPresent);
    MpChipEntriesPlain();
    SampleChipEntriesPlain();
    forall i | 0 <= i < |es| ensures Plain(es[i]) {
      assert es[i] in es;
      assert es[i] in MpChipEntries || es[i] == FcsEntry || es[i] in SampleChipEntries;
    }
  }

  /** What `elf2bin combine` reads from the mapping: the partition list, with the
      FCS partition present exactly for an MP chip whose `boot_fcs.bin` exists. */
  lemma CombineMappingParses(mpChip: int, fcsPresent: bool)
    ensures |ParseMapping(CombineMapping(mpChip, fcsPresent))| == |MappingEntries(mpChip, fcsPresent)|
    ensures forall i :: 0 <= i < |MappingEntries(mpChip, fcsPresent)| ==>
              ParseMapping(CombineMapping(mpChip, fcsPresent))[i] == Some(MappingEntries(mpChip, fcsPresent)[i])
    ensures Entry("PT_FCSDATA", "boot_fcs.bin") in MappingEntries(mpChip, fcsPresent) <==> On(mpChip) && fcsPresent
    ensures On(mpChip) <==> Entry("CER_TBL", "certable.bin") in MappingEntries(mpChip, fcsPresent)
  {
    var es := MappingEntries(mpChip, fcsPresent);
    MappingEntriesPlain(mpChip, fcsPresent);
    ParseRenderMapping(es);
  }

  /** Every file the mapping names lies in the build directory under one of
      these names; the fix-ups of `_flash_action` supply the last two. */
  lemma MappingFiles(mpChip: int, fcsPresent: bool, e: Entry)
    requires e in MappingEntries(mpChip, fcsPresent)
    ensures e.file in ["certable.bin", "certificate.bin", "boot.bin", "firmware.bin", "firmware_isp_iq.bin", "boot_fcs.bin"]
    ensures !On(mpChip) ==> e.file in ["boot.bin", "firmware.bin", "firmware_isp_iq.bin"]
  {
  }
}

/**
  The TrustZone-dependent part of the application's source list
  (platform-amebapro2/builder/main.py:478-494): the secure-world HAL files
  under `ram_s/` with TrustZone, the non-secure ones under `ram_ns/` without.
  The long fixed list the choice is appended to is configuration data and is
  taken here as a parameter.
 */
module Sources {
  import opened Common
  import opened Flags
  import opened Paths

  const HalSourceDir: string := "component/soc/8735b/fwlib/rtl8735b/source/"

  /** Secure-world drivers, compiled only with TrustZone. */
  const SecureDir: string := HalSourceDir + "ram_s/"
  const SecureNames: seq<string> :=
    ["hal_eth_nsc.c", "hal_flash_sec.c", "hal_hkdf.c", "hal_pinmux_nsc.c",
     "hal_rtc_nsc.c", "hal_rtc.c", "hal_trng_sec.c", "hal_wdt.c"]

  /** Non-secure drivers, compiled only without TrustZone. */
  const NonSecureDir: string := HalSourceDir + "ram_ns/"
  const NonSecureNames: seq<string> := ["hal_flash_ns.c", "hal_spic_ns.c", "hal_wlan.c"]

  /** `os.path.join(sdk_dir, dir + name)` for each name, in order. */
  function InSdk(sdkDir: string, dir: string, names: seq<string>): (r: seq<string>)
    ensures |r| == |names|
    ensures forall i :: 0 <= i < |names| ==> r[i] == Join(sdkDir, dir + names[i])
  {
    seq(|names|, i requires 0 <= i < |names| => Join(sdkDir, dir + names[i]))
  }

  /** The sources `if USE_TZ:` appends to the application list: with
      TrustZone the eight secure files in order and no non-secure one, without
      it the three non-secure files in order and no secure one. */
  function TrustZoneSources(sdkDir: string, useTz: int): (r: seq<string>)
    ensures |r| == if On(useTz) then |SecureNames| else |NonSecureNames|
    ensures On(useTz) ==> forall i :: 0 <= i < |SecureNames| ==> r[i] == Join(sdkDir, SecureDir + SecureNames[i])
    ensures !On(useTz) ==> forall i :: 0 <= i < |NonSecureNames| ==> r[i] == Join(sdkDir, NonSecureDir + NonSecureNames[i])
    ensures On(useTz) ==> forall n :: n in NonSecureNames ==> Join(sdkDir, NonSecureDir + n) !in r
    ensures !On(useTz) ==> forall n :: n in SecureNames ==> Join(sdkDir, SecureDir + n) !in r
  {
    SubsetsDisjoint(sdkDir);
    if On(useTz) then InSdk(sdkDir, SecureDir, SecureNames) else InSdk(sdkDir, NonSecureDir, NonSecureNames)
  }

  /** No secure source has the path of a non-secure one. */
  lemma SubsetsDisjoint(sdkDir: string)
    ensures forall n, m :: n in SecureNames && m in NonSecureNames ==>
              Join(sdkDir, SecureDir + n) != Join(sdkDir, NonSecureDir + m)
  {
    forall n, m | n in SecureNames && m in NonSecureNames
      ensures Join(sdkDir, SecureDir + n) != Join(sdkDir, NonSecureDir + m)
    {
      HalDirsDiffer(n, m);
      assert (SecureDir + n)[0] == 'c' && (NonSecureDir + m)[0] == 'c';
      if Join(sdkDir, SecureDir + n) == Join(sdkDir, NonSecureDir + m) {
        JoinInjective(sdkDir, SecureDir + n, NonSecureDir + m);
      }
    }
  }

  /** `application_src += ...`: the fixed list comes first, unchanged, and the
      TrustZone-dependent files follow it. */
  function ApplicationSources(base: seq<string>, sdkDir: string, useTz: int): (r: seq<string>)
    ensures |r| == |base| + (if On(useTz) then |SecureNames| else |NonSecureNames|)
    ensures r[..|base|] == base && r[|base|..] == TrustZoneSources(sdkDir, useTz)
  {
    base + TrustZoneSources(sdkDir, useTz)
  }

  lemma {:induction false} HalDirsDiffer(a: string, b: string)
    ensures SecureDir + a != NonSecureDir + b
  {
    var k := |HalSourceDir| + 4;
    assert (SecureDir + a)[k] == 's';
    assert (NonSecureDir + b)[k] == 'n';
  }

  /** Every file of the chosen subset is compiled: with TrustZone all eight
      secure files, without it all three non-secure ones. */
  lemma TrustZoneSubsetComplete(sdkDir: string, useTz: int)
    ensures On(useTz) ==> forall n :: n in SecureNames ==>
              Join(sdkDir, SecureDir + n) in TrustZoneSources(sdkDir, useTz)
    ensures !On(useTz) ==> forall n :: n in NonSecureNames ==>
              Join(sdkDir, NonSecureDir + n) in TrustZoneSources(sdkDir, useTz)
  {
    var extra := TrustZoneSources(sdkDir, useTz);
    forall n | n in SecureNames && On(useTz) ensures Join(sdkDir, SecureDir + n) in extra {
      var i :| 0 <= i < |SecureNames| && SecureNames[i] == n;
      assert extra[i] == Join(sdkDir, SecureDir + n);
    }
    forall n | n in NonSecureNames && !On(useTz) ensures Join(sdkDir, NonSecureDir + n) in extra {
      var i :| 0 <= i < |NonSecureNames| && NonSecureNames[i] == n;
      assert extra[i] == Join(sdkDir, NonSecureDir + n);
    }
  }
}

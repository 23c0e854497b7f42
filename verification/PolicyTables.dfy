/** The shipped policy tables of the responder. */
module PolicyTables {
  import A = Allowlist
  import opened Responder
  import opened Texts

  const NEVER_KILL: set<string> := {
    "system", "registry", "smss.exe", "csrss.exe", "wininit.exe",
    "services.exe", "lsass.exe", "winlogon.exe", "fontdrvhost.exe",
    "dwm.exe", "memcompression",
    "python.exe", "py.exe", "pythonw.exe",
    "chrome.exe", "msedge.exe", "edge.exe", "firefox.exe",
    "iexplore.exe", "brave.exe", "opera.exe",
    "explorer.exe", "systemsettings.exe", "shellexperiencehost.exe",
    "searchhost.exe", "startmenuexperiencehost.exe",
    "svchost.exe", "spoolsv.exe", "audiodg.exe",
    "conhost.exe", "taskhostw.exe", "runtimebroker.exe",
    "devenv.exe", "code.exe", "node.exe", "powershell.exe",
    "powershell_ise.exe", "cmd.exe", "wt.exe",
    "backgrounddownload.exe", "wmiprvse.exe", "trustedinstaller.exe",
    "tiworker.exe", "musnotification.exe",
    "msmpeng.exe", "mssense.exe", "securityhealthservice.exe"
  }

  const ESCALATE_CHILD_NAMES: set<string> := {
    "powershell.exe", "pwsh.exe", "cmd.exe",
    "vssadmin.exe", "wmic.exe", "wbadmin.exe", "bcdedit.exe",
    "wevtutil.exe", "fsutil.exe", "schtasks.exe", "reg.exe",
    "mshta.exe", "regsvr32.exe", "rundll32.exe", "cipher.exe",
    "bitsadmin.exe", "certutil.exe", "manage-bde.exe", "netsh.exe"
  }

  const PATH_VERIFIED: set<string> := {
    "smss.exe", "csrss.exe", "wininit.exe", "services.exe", "lsass.exe",
    "lsaiso.exe", "winlogon.exe", "fontdrvhost.exe", "dwm.exe",
    "svchost.exe", "spoolsv.exe", "audiodg.exe", "conhost.exe",
    "taskhostw.exe", "runtimebroker.exe", "wmiprvse.exe", "sihost.exe",
    "dllhost.exe", "ctfmon.exe"
  }

  const PSEUDO_PROCS: set<string> := {"system", "registry", "memcompression", "secure system"}

  const SYSTEM32 := "c:\\windows\\system32"
  const SYSWOW64 := "c:\\windows\\syswow64"
  const TRUSTED_DIRS: seq<string> := [SYSTEM32, SYSWOW64]

  const DEFAULT_NAMES: NameLists :=
    NameLists(NEVER_KILL, PATH_VERIFIED, PSEUDO_PROCS, ESCALATE_CHILD_NAMES, TRUSTED_DIRS)

  // ------------------------------------------------------- who is protected

  /** Protection by name, whatever the image: a pseudo process is protected, and so is a listed name that is not
      path-verified; a name on neither list never is. `ProtectionMeansTrustedDirIff` covers the path-verified names. */
  lemma ProtectedByName(names: NameLists, image: Lookup)
    ensures Lower(image.name) in names.pseudoProcs ==> IsNeverKill(names, image)
    ensures Lower(image.name) in names.neverKill && Lower(image.name) !in names.pathVerified ==>
              IsNeverKill(names, image)
    ensures Lower(image.name) !in names.pseudoProcs && Lower(image.name) !in names.neverKill ==>
              !IsNeverKill(names, image)
  {
  }

  // ------------------------------------------------ what the path check means

  /** The image lies in one of the directories, component by component. */
  predicate InTrustedDir(dirs: seq<string>, exe: string) {
    exists d :: d in dirs && A.Components(d) <= A.Components(NormCase(exe))
  }

  /** The directory's path is a string prefix of the image's that stops inside a component. */
  predicate StopsInside(dir: string, path: string) {
    dir <= path && !A.EndsAtBoundary(dir, path)
  }

  predicate BesideTrustedDir(dirs: seq<string>, exe: string) {
    exists d :: d in dirs && StopsInside(d, NormCase(exe))
  }

  /** No directory's path is a string prefix of another's. */
  predicate Unnested(dirs: seq<string>) {
    forall a, b :: a in dirs && b in dirs && a <= b ==> a == b
  }

  /** A name that is protected only with its image in the right place. */
  predicate PathVerified(names: NameLists, name: string) {
    var n := Lower(name);
    n in names.neverKill && n in names.pathVerified && n !in names.pseudoProcs
  }

  lemma InTrustedDirIff(dirs: seq<string>, exe: string)
    ensures InTrustedDir(dirs, exe) <==> exists d :: d in dirs && A.EndsAtBoundary(d, NormCase(exe))
  {
    forall d | d in dirs
      ensures A.Components(d) <= A.Components(NormCase(exe)) <==> A.EndsAtBoundary(d, NormCase(exe))
    {
      A.BoundaryIsComponentPrefix(d, NormCase(exe));
    }
  }

  lemma OnePrefixOnly(dirs: seq<string>, path: string, a: string, b: string)
    requires Unnested(dirs) && a in dirs && b in dirs && a <= path && b <= path
    ensures a == b
  {
    assert a <= b || b <= a;
  }

  /** Exactly when the path check means what it is for: a path-verified name is protected just when its image lies in
      a trusted directory or cannot be read, unless a trusted directory's path goes on inside a component of the
      image's, and then the name is protected although the image lies in none. */
  lemma ProtectionMeansTrustedDirIff(names: NameLists, image: Lookup)
    requires PathVerified(names, image.name) && Unnested(names.trustedDirs)
    ensures (IsNeverKill(names, image) <==> image.exe == "" || InTrustedDir(names.trustedDirs, image.exe)) <==>
            image.exe == "" || !BesideTrustedDir(names.trustedDirs, image.exe)
    ensures image.exe != "" && BesideTrustedDir(names.trustedDirs, image.exe) ==>
              IsNeverKill(names, image) && !InTrustedDir(names.trustedDirs, image.exe)
  {
    var dirs, path := names.trustedDirs, NormCase(image.exe);
    InTrustedDirIff(dirs, image.exe);
    forall a, b | a in dirs && b in dirs && StopsInside(a, path) && A.EndsAtBoundary(b, path)
      ensures false
    {
      OnePrefixOnly(dirs, path, a, b);
    }
  }

  // --------------------------------------------------------- the shipped tables

  lemma ShippedDirsUnnested()
    ensures Unnested(TRUSTED_DIRS)
  {
    assert SYSTEM32[14] == 't' && SYSWOW64[14] == 'w';
  }

  lemma PathVerifiedAreReal(n: string)
    requires n in PATH_VERIFIED
    ensures n !in PSEUDO_PROCS
  {
  }

  /** With the shipped tables, Explorer, a browser and Defender are protected wherever their image is, and the System
      process by its name. */
  lemma ShippedNamesAreProtected(exe: string)
    ensures IsNeverKill(DEFAULT_NAMES, Lookup("Explorer.EXE", "", exe))
    ensures IsNeverKill(DEFAULT_NAMES, Lookup("chrome.exe", "", exe))
    ensures IsNeverKill(DEFAULT_NAMES, Lookup("MsMpEng.exe", "", exe))
    ensures IsNeverKill(DEFAULT_NAMES, Lookup("System", "", exe))
  {
    NameReads("Explorer.EXE", "explorer.exe");
    NameReads("chrome.exe", "chrome.exe");
    NameReads("MsMpEng.exe", "msmpeng.exe");
    NameReads("System", "system");
    PlainlyListed("explorer.exe");
    PlainlyListed("chrome.exe");
    PlainlyListed("msmpeng.exe");
    ProtectedByName(DEFAULT_NAMES, Lookup("Explorer.EXE", "", exe));
    ProtectedByName(DEFAULT_NAMES, Lookup("chrome.exe", "", exe));
    ProtectedByName(DEFAULT_NAMES, Lookup("MsMpEng.exe", "", exe));
    ProtectedByName(DEFAULT_NAMES, Lookup("System", "", exe));
  }

  lemma NameReads(name: string, lower: string)
    requires |lower| == |name| && forall i :: 0 <= i < |name| ==> LowerChar(name[i]) == lower[i]
    ensures Lower(name) == lower
  {
  }

  lemma PlainlyListed(n: string)
    requires n == "explorer.exe" || n == "chrome.exe" || n == "msmpeng.exe"
    ensures n in NEVER_KILL && n !in PATH_VERIFIED
  {
  }

  lemma PathBesideSystem32(exe: string)
    requires exe == "c:\\windows\\system32evil\\svchost.exe"
    ensures BesideTrustedDir(TRUSTED_DIRS, exe)
  {
    var path := NormCase(exe);
    assert SYSTEM32 <= path && path[|SYSTEM32|] == 'e';
    assert StopsInside(SYSTEM32, path);
    assert SYSTEM32 in TRUSTED_DIRS;
  }

  /** A directory beside the real one passes: with the shipped tables, the impostor in it is protected. */
  lemma ImpostorBesideSystem32(image: Lookup)
    requires image == Lookup("svchost.exe", "", "c:\\windows\\system32evil\\svchost.exe")
    ensures IsNeverKill(DEFAULT_NAMES, image) && !InTrustedDir(TRUSTED_DIRS, image.exe)
  {
    assert Lower(image.name) == "svchost.exe";
    PathVerifiedAreReal(Lower(image.name));
    PathBesideSystem32(image.exe);
    ShippedDirsUnnested();
    ProtectionMeansTrustedDirIff(DEFAULT_NAMES, image);
  }
}

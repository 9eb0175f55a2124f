/**
 * The path and option logic of BirdFont's installer (install.py): where a
 * file lands under the staging directory and the prefix, how unset command
 * line options are defaulted, and which library directory is chosen.
 * Running `install`, writing the uninstall list and querying the platform
 * are I/O; the platform answers are parameters here.
 */
module Install {
  import opened Common
  import opened PyStrings

  /** Destination of `file` installed into `dir`: staging root, prefix, directory, then the file's last path component. */
  function GetDest(dest: string, prefix: string, file: string, dir: string): string {
    var f := dest + prefix + dir + "/";
    var s := RFind(file, '/');
    if s > -1 then f + file[s + 1..] else f + file
  }

  /** The same as GetDest without the prefix: used for files that belong under the system root (/etc). */
  function GetDestRoot(dest: string, file: string, dir: string): string {
    var f := dest + dir + "/";
    var s := RFind(file, '/');
    if s > -1 then f + file[s + 1..] else f + file
  }

  /** The rfind-based tail of both destination functions is the file's basename. */
  lemma TailIsBasename(file: string)
    ensures var s := RFind(file, '/');
      (if s > -1 then file[s + 1..] else file) == Basename(file)
  {
    assert file[0..] == file;
  }

  /** install.py's getDest: dest + prefix + dir + '/' + basename(file), and the name after the last '/' has no '/'. */
  lemma GetDestShape(dest: string, prefix: string, file: string, dir: string)
    ensures GetDest(dest, prefix, file, dir) == dest + prefix + dir + "/" + Basename(file)
    ensures '/' !in Basename(file) && EndsWith(file, Basename(file))
  {
    TailIsBasename(file);
  }

  /** getDestRoot is getDest with an empty prefix. */
  lemma GetDestRootNoPrefix(dest: string, file: string, dir: string)
    ensures GetDestRoot(dest, file, dir) == GetDest(dest, "", file, dir)
    ensures GetDestRoot(dest, file, dir) == dest + dir + "/" + Basename(file)
  {
    TailIsBasename(file);
    var b := Basename(file);
    assert GetDestRoot(dest, file, dir) == dest + dir + "/" + b;
    assert dest + "" == dest;
    assert GetDest(dest, "", file, dir) == dest + "" + dir + "/" + b;
  }

  /** A file already named without a directory keeps its whole name. */
  lemma GetDestOfBareName(dest: string, prefix: string, file: string, dir: string)
    requires '/' !in file
    ensures GetDest(dest, prefix, file, dir) == dest + prefix + dir + "/" + file
  {
    GetDestShape(dest, prefix, file, dir);
  }

  // ---------------------------------------------------------------
  // Command line options
  // ---------------------------------------------------------------

  /** optparse's result: an option that was not given is None; a given one is its text. */
  datatype Options = Options(
    dest: Option<string>, nogzip: Option<string>, mandir: Option<string>,
    libdir: Option<string>, nocli: Option<string>, apport: Option<string>)

  /** The settings the installer acts on once options are defaulted. */
  datatype Settings = Settings(
    dest: string, gzipManpages: bool, mandir: string, installCli: bool, apport: bool)

  const DefaultMandir := "/man/man1"

  /** Python truthiness of an optional string option: given and non-empty. */
  predicate Truthy(o: Option<string>) {
    o.Some? && o.value != ""
  }

  /**
   * Option defaulting. An unset or empty dest becomes ""; manpages are
   * gzipped and command line tools installed unless the option is given
   * non-empty; apport is on when the option is absent, and otherwise on
   * exactly when its text is non-empty; an unset or empty mandir becomes
   * /man/man1.
   */
  function Defaults(o: Options): (s: Settings)
    ensures s.dest == (if Truthy(o.dest) then o.dest.value else "")
    ensures s.mandir == (if Truthy(o.mandir) then o.mandir.value else DefaultMandir)
    ensures o.apport.None? ==> s.apport
    ensures o.apport.Some? ==> (s.apport <==> o.apport.value != "")
    ensures s.installCli <==> !Truthy(o.nocli)
    ensures s.gzipManpages <==> !Truthy(o.nogzip)
  {
    Settings(
      if Truthy(o.dest) then o.dest.value else "",
      !Truthy(o.nogzip),
      if Truthy(o.mandir) then o.mandir.value else DefaultMandir,
      !Truthy(o.nocli),
      match o.apport case None => true case Some(a) => a != "")
  }

  // ---------------------------------------------------------------
  // Library directory
  // ---------------------------------------------------------------

  /** What the platform module and dpkg-architecture report (I/O in the script). */
  datatype Platform = Platform(distribution: string, machine: string, multiarchOutput: string)

  const Lib := "/lib"
  const Lib64 := "/lib64"
  const Ubuntu := "Ubuntu"
  const Debian := "Debian"

  /** Python's rstrip('\n'): every trailing newline removed. */
  function RStripNewlines(s: string): (r: string)
    ensures |r| <= |s| && r == s[..|r|]
    ensures r == [] || r[|r| - 1] != '\n'
    ensures forall i :: |r| <= i < |s| ==> s[i] == '\n'
  {
    if s != [] && s[|s| - 1] == '\n' then RStripNewlines(s[..|s| - 1]) else s
  }

  predicate IsDebianLike(plat: Platform) {
    plat.distribution == Ubuntu || plat.distribution == Debian
  }

  predicate Is32BitMachine(m: string) {
    m == "i386" || m == "s390" || m == "ppc" || m == "armv7hl"
  }

  predicate Is64BitMachine(m: string) {
    m == "x86_64" || m == "s390x" || m == "ppc64"
  }

  /** The library directory: the --libdir option when given non-empty, else the multiarch directory on Debian-like systems, else by machine name. */
  function Libdir(libdir: Option<string>, plat: Platform): string {
    if Truthy(libdir) then libdir.value
    else if IsDebianLike(plat) then Lib + "/" + RStripNewlines(plat.multiarchOutput)
    else if Is32BitMachine(plat.machine) then Lib
    else if Is64BitMachine(plat.machine) then Lib64
    else Lib
  }

  /** An explicit non-empty --libdir always wins. */
  lemma ExplicitLibdirWins(dir: string, plat: Platform)
    requires dir != ""
    ensures Libdir(Some(dir), plat) == dir
  {
  }

  /** Without --libdir, outside Debian and Ubuntu, the choice is /lib64 exactly for the 64-bit machine names and /lib for every other machine. */
  lemma MachineLibdir(libdir: Option<string>, plat: Platform)
    requires !Truthy(libdir) && !IsDebianLike(plat)
    ensures Libdir(libdir, plat) == Lib64 <==> Is64BitMachine(plat.machine)
    ensures Libdir(libdir, plat) == Lib <==> !Is64BitMachine(plat.machine)
  {
    assert Lib != Lib64 by { assert |Lib| != |Lib64|; }
  }

  /** On Debian and Ubuntu the directory is /lib/<multiarch triplet> with no trailing newline. */
  lemma DebianLibdir(libdir: Option<string>, plat: Platform)
    requires !Truthy(libdir) && IsDebianLike(plat)
    ensures StartsWith(Libdir(libdir, plat), Lib + "/")
    ensures var r := Libdir(libdir, plat); r[|r| - 1] != '\n'
  {
    var t := RStripNewlines(plat.multiarchOutput);
    assert Libdir(libdir, plat) == (Lib + "/") + t;
  }
}

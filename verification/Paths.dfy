/** The pure path functions of twe/src/filesystem/filesystem.cpp, on characters. */
module Paths {
  type Path = string

  predicate IsSep(c: char) {
    c == '/' || c == '\\'
  }

  predicate IsAlpha(c: char) {
    'a' <= c <= 'z' || 'A' <= c <= 'Z'
  }

  predicate EndsSep(p: Path) {
    p != "" && IsSep(p[|p| - 1])
  }

  predicate StartsSep(p: Path) {
    p != "" && IsSep(p[0])
  }

  predicate SepFree(p: Path) {
    forall i | 0 <= i < |p| :: !IsSep(p[i])
  }

  // ---- normalize ------------------------------------------------------------------------------

  // Each run of separators becomes one backslash.
  function Collapsed(p: Path): (r: Path)
    ensures (r == "" <==> p == "") && (EndsSep(r) <==> EndsSep(p)) && '/' !in r
  {
    if p == "" then ""
    else
      var r, c := Collapsed(p[..|p| - 1]), p[|p| - 1];
      if IsSep(c) then (if EndsSep(r) then r else r + "\\") else r + [c]
  }

  // "X:\" for a letter X.
  predicate IsDriveRoot(p: Path) {
    |p| == 3 && IsAlpha(p[0]) && p[1] == ':' && p[2] == '\\'
  }

  function Trimmed(p: Path): Path {
    if !IsDriveRoot(p) && |p| > 1 && p[|p| - 1] == '\\' then p[..|p| - 1] else p
  }

  function Normalized(p: Path): Path {
    Trimmed(Collapsed(p))
  }

  method Normalize(path: Path) returns (out: Path)
    ensures out == Normalized(path)
  {
    if path == "" { return ""; }
    out := "";
    var lastWasSep := false;
    var i := 0;
    while i < |path|
      invariant i <= |path| && out == Collapsed(path[..i]) && lastWasSep == EndsSep(out)
    {
      var c := path[i];
      assert path[..i + 1][..i] == path[..i];
      if c == '/' || c == '\\' {
        if !lastWasSep {
          out := out + "\\";
          lastWasSep := true;
        }
      } else {
        out := out + [c];
        lastWasSep := false;
      }
      i := i + 1;
    }
    assert path[..i] == path;
    if |out| == 3 && IsAlpha(out[0]) && out[1] == ':' && out[2] == '\\' { return; }
    if |out| > 1 && out[|out| - 1] == '\\' { out := out[..|out| - 1]; }
  }

  // ---- join and the parts of a path -----------------------------------------------------------

  function Join(a: Path, b: Path): Path {
    if a == "" then b
    else if b == "" then a
    else if EndsSep(a) && StartsSep(b) then a + b[1..]
    else if !EndsSep(a) && !StartsSep(b) then a + "\\" + b
    else a + b
  }

  // find_last_of: the last position whose character passes, or the length for npos.
  function LastWhere(p: Path, test: char -> bool): (k: nat)
    ensures k <= |p| && (k < |p| ==> test(p[k]))
    ensures forall i | 0 <= i < |p| && (k < i || k == |p|) :: !test(p[i])
  {
    if p == "" then 0
    else if test(p[|p| - 1]) then |p| - 1
    else
      var k := LastWhere(p[..|p| - 1], test);
      if k == |p| - 1 then |p| else k
  }

  function LastSep(p: Path): nat {
    LastWhere(p, IsSep)
  }

  function ParentPath(p: Path): Path {
    var pos := LastSep(p);
    if p == "" || pos == |p| then ""
    else if pos == 0 then p[..1]
    else if pos == 2 && p[1] == ':' then p[..3]
    else p[..pos]
  }

  function Filename(p: Path): Path {
    var pos := LastSep(p);
    if p == "" then "" else if pos == |p| then p else if pos + 1 >= |p| then "" else p[pos + 1..]
  }

  predicate IsDot(c: char) {
    c == '.'
  }

  function LastDot(file: Path): nat {
    LastWhere(file, IsDot)
  }

  function Stem(p: Path): Path {
    var file := Filename(p);
    var pos := LastDot(file);
    if file == "" then "" else if pos == |file| || pos == 0 then file else file[..pos]
  }

  function Extension(p: Path): Path {
    var file := Filename(p);
    var pos := LastDot(file);
    if file == "" || pos == |file| || pos == 0 || pos + 1 >= |file| then "" else file[pos + 1..]
  }

  // A drive letter in front.
  predicate HasDrive(p: Path) {
    |p| >= 2 && IsAlpha(p[0]) && p[1] == ':'
  }

  predicate IsUnc(p: Path) {
    |p| >= 2 && IsSep(p[0]) && IsSep(p[1])
  }

  predicate IsAbsolute(p: Path) {
    HasDrive(p) || IsUnc(p)
  }

  // ---- What a path means ----------------------------------------------------------------------

  // Its components: the nonempty stretches between separators.
  function Components(p: Path): (cs: seq<string>)
    ensures forall i | 0 <= i < |cs| :: cs[i] != "" && SepFree(cs[i])
    ensures p != "" && !EndsSep(p) ==> cs != []
  {
    if p == "" then []
    else
      var front, c := p[..|p| - 1], p[|p| - 1];
      if IsSep(c) then Components(front)
      else if front == "" || EndsSep(front) then Components(front) + [[c]]
      else Longer(Components(front), c)
  }

  // The last component gets one more character.
  function Longer(cs: seq<string>, c: char): seq<string>
    requires cs != []
  {
    cs[..|cs| - 1] + [cs[|cs| - 1] + [c]]
  }

  // It begins with a separator; it is a bare drive letter, colon and separators.
  predicate Rooted(p: Path) {
    StartsSep(p)
  }

  predicate DriveRooted(p: Path) {
    && !Rooted(p) && EndsSep(p)
    && |Components(p)| == 1 && |Components(p)[0]| == 2 && IsAlpha(Components(p)[0][0]) && Components(p)[0][1] == ':'
  }

  // Components with one backslash between each two.
  function Spelled(cs: seq<string>): string {
    if cs == [] then ""
    else if |cs| == 1 then cs[0]
    else Spelled(cs[..|cs| - 1]) + "\\" + cs[|cs| - 1]
  }

  function Root(p: Path): string {
    if Rooted(p) then "\\" else ""
  }
}

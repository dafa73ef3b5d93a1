/** Go's `path/filepath` on Windows, as far as the container code uses it: volume names, `Clean`,
 *  `Base` and joining onto a drive. Both '/' and '\' separate; '\' is the one written. */
module WinPath {
  import opened Text

  const SEPARATOR: char := '\\'

  predicate IsSep(c: char) { c == '/' || c == '\\' }

  predicate IsLetter(c: char) { ('a' <= c <= 'z') || ('A' <= c <= 'Z') }

  /** The length of the leading drive volume ("C:"), or 0. */
  function VolumeNameLen(p: string): (n: nat)
    ensures n == 0 || n == 2
    ensures n <= |p|
  {
    if |p| >= 2 && p[1] == ':' && IsLetter(p[0]) then 2 else 0
  }

  /** `filepath.VolumeName`. */
  function VolumeName(p: string): string
  {
    p[..VolumeNameLen(p)]
  }

  /** `filepath.IsAbs`: a volume followed by a separator. */
  predicate IsAbs(p: string)
  {
    VolumeNameLen(p) > 0 && VolumeNameLen(p) < |p| && IsSep(p[VolumeNameLen(p)])
  }

  /** `filepath.FromSlash` over the whole string: every '/' becomes '\'. */
  function FromSlash(s: string): (r: string)
    ensures |r| == |s|
    ensures '/' !in r
    ensures forall i :: 0 <= i < |s| ==> r[i] == (if s[i] == '/' then SEPARATOR else s[i])
  {
    seq(|s|, i requires 0 <= i < |s| => if s[i] == '/' then SEPARATOR else s[i])
  }

  /** The pieces between separators, empty ones included. */
  function Segments(rest: string): (r: seq<string>)
    ensures |r| >= 1
    ensures forall i :: 0 <= i < |r| ==> NoSep(r[i])
  {
    var parts := Split(FromSlash(rest), SEPARATOR);
    SplitKeepsOut(FromSlash(rest), SEPARATOR, '/');
    assert forall i :: 0 <= i < |parts| ==> NoSep(parts[i]) by {
      forall i | 0 <= i < |parts| ensures NoSep(parts[i]) {
        assert '/' !in parts[i] && SEPARATOR !in parts[i];
      }
    }
    parts
  }

  predicate NoSep(e: string) { forall i :: 0 <= i < |e| ==> !IsSep(e[i]) }

  /** A piece of a split string holds only characters of that string. */
  lemma {:induction false} SplitKeepsOut(s: string, c: char, x: char)
    requires x !in s
    ensures forall i :: 0 <= i < |Split(s, c)| ==> x !in Split(s, c)[i]
    decreases |s|
  {
    if c in s {
      var k := IndexOf(s, c);
      assert s == s[..k] + [c] + s[k + 1..];
      SplitKeepsOut(s[k + 1..], c, x);
      assert Split(s, c) == [s[..k]] + Split(s[k + 1..], c);
    }
  }

  /** An element that survives cleaning: not empty, not ".", not "..", no separator. */
  predicate PlainElement(e: string)
  {
    e != "" && e != "." && e != ".." && NoSep(e)
  }

  /** The shape of a cleaned element list: every element is plain or "..", the ".." elements
   *  come first, and a rooted path has none. */
  predicate CleanStack(stack: seq<string>, rooted: bool)
  {
    (forall i :: 0 <= i < |stack| ==> PlainElement(stack[i]) || stack[i] == "..")
    && (forall i, j :: 0 <= i < j < |stack| && stack[j] == ".." ==> stack[i] == "..")
    && (rooted ==> forall i :: 0 <= i < |stack| ==> stack[i] != "..")
  }

  /** The lexical walk of `Clean`: skip empty and "." elements; ".." removes the last real
   *  element, is dropped at a root, and is kept at the front of a relative path. */
  function Resolve(elems: seq<string>, rooted: bool, stack: seq<string>): (r: seq<string>)
    requires forall i :: 0 <= i < |elems| ==> NoSep(elems[i])
    requires CleanStack(stack, rooted)
    ensures CleanStack(r, rooted)
    decreases |elems|
  {
    if |elems| == 0 then stack
    else
      var e := elems[0];
      var next :=
        if e == "" || e == "." then stack
        else if e == ".." then
          (if |stack| > 0 && stack[|stack| - 1] != ".." then stack[..|stack| - 1]
           else if rooted then stack
           else stack + [".."])
        else stack + [e];
      Resolve(elems[1..], rooted, next)
  }

  /** `filepath.Clean`: the volume kept, separators turned to '\', and the element list
   *  resolved; an empty relative result is ".". */
  function Clean(p: string): (r: string)
    ensures StartsWith(r, VolumeName(p))
    ensures |r| > VolumeNameLen(p)
    ensures VolumeNameLen(p) < |p| ==> '/' !in r
  {
    var v := VolumeNameLen(p);
    var rest := p[v..];
    if rest == "" then p + "."
    else
      var rooted := IsSep(rest[0]);
      var stack := Resolve(Segments(rest), rooted, []);
      var body := Join(stack, [SEPARATOR]);
      JoinHasNoSlash(stack);
      p[..v] + (if rooted then [SEPARATOR] + body else if body == "" then "." else body)
  }

  lemma {:induction false} JoinHasNoSlash(stack: seq<string>)
    requires forall i :: 0 <= i < |stack| ==> PlainElement(stack[i]) || stack[i] == ".."
    ensures '/' !in Join(stack, [SEPARATOR])
    decreases |stack|
  {
    if |stack| > 1 {
      JoinHasNoSlash(stack[1..]);
      assert '/' !in stack[0];
    } else if |stack| == 1 {
      assert '/' !in stack[0];
    }
  }

  /** Plain elements resolve to themselves. */
  lemma {:induction false} ResolvePlain(elems: seq<string>, rooted: bool, stack: seq<string>)
    requires forall i :: 0 <= i < |elems| ==> PlainElement(elems[i]) && NoSep(elems[i])
    requires CleanStack(stack, rooted) && CleanStack(stack + elems, rooted)
    ensures Resolve(elems, rooted, stack) == stack + elems
    decreases |elems|
  {
    if |elems| > 0 {
      assert (stack + [elems[0]]) + elems[1..] == stack + elems;
      assert CleanStack(stack + [elems[0]], rooted) by {
        assert forall i :: 0 <= i < |stack| + 1 ==> (stack + [elems[0]])[i] == (stack + elems)[i];
      }
      ResolvePlain(elems[1..], rooted, stack + [elems[0]]);
    }
  }

  /** The segments of a rooted, already cleaned body: an empty one for the root, then the
   *  elements (or one more empty one when there are none). */
  lemma SegmentsOfRooted(stack: seq<string>)
    requires CleanStack(stack, true)
    ensures Segments([SEPARATOR] + Join(stack, [SEPARATOR])) == [""] + (if |stack| == 0 then [""] else stack)
  {
    var body := Join(stack, [SEPARATOR]);
    var rest := [SEPARATOR] + body;
    JoinHasNoSlash(stack);
    assert FromSlash(rest) == rest;
    IndexOfFirst(rest, SEPARATOR, 0);
    assert rest[1..] == body;
    assert Split(rest, SEPARATOR) == [""] + Split(body, SEPARATOR);
    if |stack| > 0 {
      assert forall i :: 0 <= i < |stack| ==> SEPARATOR !in stack[i] by {
        forall i | 0 <= i < |stack| ensures SEPARATOR !in stack[i] {
          assert PlainElement(stack[i]);
        }
      }
      SplitJoin(stack, SEPARATOR);
    }
  }

  /** Cleaning a rooted path twice is cleaning it once. */
  lemma CleanIdempotentRooted(p: string)
    requires VolumeNameLen(p) < |p| && IsSep(p[VolumeNameLen(p)])
    ensures Clean(Clean(p)) == Clean(p)
  {
    var v := VolumeNameLen(p);
    var stack := Resolve(Segments(p[v..]), true, []);
    var body := Join(stack, [SEPARATOR]);
    var c := Clean(p);
    assert c == p[..v] + ([SEPARATOR] + body);
    assert VolumeNameLen(c) == v;
    assert c[v..] == [SEPARATOR] + body;
    calc {
      Clean(c);
      c[..v] + ([SEPARATOR] + Join(Resolve(Segments(c[v..]), true, []), [SEPARATOR]));
      { ResolveResegmented(stack); }
      c[..v] + ([SEPARATOR] + body);
      c;
    }
  }

  /** The elements of a rooted cleaned list, joined behind a separator and split again,
   *  resolve to the same list. */
  lemma ResolveResegmented(stack: seq<string>)
    requires CleanStack(stack, true)
    ensures Resolve(Segments([SEPARATOR] + Join(stack, [SEPARATOR])), true, []) == stack
  {
    SegmentsOfRooted(stack);
    if |stack| == 0 {
      var segs := ["", ""];
      assert segs[1..] == [""] && segs[1..][1..] == [];
      assert Resolve(segs, true, []) == Resolve([""], true, []) == Resolve([], true, []);
    } else {
      ResolveRootedStack(stack);
    }
  }

  /** `filepath.Base`: the last element after trailing separators are dropped; "." for the empty
   *  path and "\" for a path of separators. */
  function Base(p: string): (r: string)
    ensures |r| >= 1
    ensures r == [SEPARATOR] || NoSep(r)
  {
    if p == "" then "."
    else
      var trimmed := TrimTrailingSeps(p);
      var rest := trimmed[VolumeNameLen(trimmed)..];
      var last := LastElement(rest);
      if last == "" then [SEPARATOR] else last
  }

  function TrimTrailingSeps(p: string): (r: string)
    ensures |r| <= |p| && r == p[..|r|]
    ensures |r| > 0 ==> !IsSep(r[|r| - 1])
    decreases |p|
  {
    if |p| > 0 && IsSep(p[|p| - 1]) then TrimTrailingSeps(p[..|p| - 1]) else p
  }

  /** The text after the last separator. */
  function LastElement(s: string): (r: string)
    ensures |r| <= |s| && r == s[|s| - |r|..]
    ensures NoSep(r)
    ensures |r| < |s| ==> IsSep(s[|s| - |r| - 1])
    decreases |s|
  {
    if |s| == 0 || IsSep(s[|s| - 1]) then ""
    else LastElement(s[..|s| - 1]) + [s[|s| - 1]]
  }

  /** `filepath.Join("C:", p)`: a bare drive keeps the path relative to that
   *  drive, so the pieces are concatenated and cleaned. */
  function JoinDrive(drive: string, p: string): (r: string)
    requires |drive| == 2 && drive[1] == ':' && IsLetter(drive[0])
    ensures StartsWith(r, drive)
  {
    Clean(drive + p)
  }

  /** The index of the first non-empty element from `from` on; `|elems|` if none. */
  function FirstNonEmpty(elems: seq<string>, from: nat): (i: nat)
    requires from <= |elems|
    ensures from <= i <= |elems|
    ensures forall j :: from <= j < i ==> elems[j] == ""
    ensures i < |elems| ==> elems[i] != ""
    decreases |elems| - from
  {
    if from == |elems| || elems[from] != "" then from else FirstNonEmpty(elems, from + 1)
  }

  /** `filepath.Join`: leading empty elements are skipped; a first element that is a bare
   *  drive ("C:") keeps the rest relative to that drive; otherwise the elements are joined
   *  with '\' and cleaned. With no element left the result is "". */
  function JoinPath(elems: seq<string>): (r: string)
    ensures (forall j :: 0 <= j < |elems| ==> elems[j] == "") ==> r == ""
  {
    var i := FirstNonEmpty(elems, 0);
    if i == |elems| then ""
    else
      var e := elems[i..];
      if |e[0]| == 2 && e[0][1] == ':' then
        Clean(e[0] + Join(e[FirstNonEmpty(e, 1)..], [SEPARATOR]))
      else Clean(Join(e, [SEPARATOR]))
  }

  /** Joining a plain name onto a cleaned absolute directory other than a drive's root appends
   *  a separator and the name, and nothing else changes. */
  lemma JoinOntoCleanDir(p: string, name: string)
    requires IsAbs(p) && |Clean(p)| > 3
    requires PlainElement(name)
    ensures JoinPath([Clean(p), name]) == Clean(p) + [SEPARATOR] + name
  {
    var stack := CleanAbsShape(p);
    var vol := p[..2];
    var c := Clean(p);
    var longer := stack + [name];
    RootedStackSnoc(stack, name);
    var joined := vol + [SEPARATOR] + Join(longer, [SEPARATOR]);
    calc {
      c + [SEPARATOR] + name;
      vol + [SEPARATOR] + Join(stack, [SEPARATOR]) + [SEPARATOR] + name;
      { JoinSnoc(stack, name, [SEPARATOR]); }
      joined;
    }
    calc {
      JoinPath([c, name]);
      { JoinPathOfTwo(c, name); }
      Clean(c + [SEPARATOR] + name);
      Clean(joined);
      { CleanKeepsRootedStack(vol, longer); }
      joined;
    }
  }

  /** A plain name may follow a rooted cleaned element list. */
  lemma RootedStackSnoc(stack: seq<string>, name: string)
    requires CleanStack(stack, true) && PlainElement(name)
    ensures CleanStack(stack + [name], true)
  {
    var longer := stack + [name];
    assert forall i :: 0 <= i < |stack| ==> longer[i] == stack[i];
  }

  /** Two elements, the first neither empty nor a bare drive, are joined with one separator
   *  and cleaned. */
  lemma JoinPathOfTwo(a: string, b: string)
    requires a != "" && !(|a| == 2 && a[1] == ':')
    ensures JoinPath([a, b]) == Clean(a + [SEPARATOR] + b)
  {
    var elems := [a, b];
    assert FirstNonEmpty(elems, 0) == 0;
    assert elems[0..] == elems;
    assert Join(elems, [SEPARATOR]) == a + [SEPARATOR] + b;
  }

  /** A cleaned absolute path is its drive, a separator, and a cleaned element list; a path
   *  longer than the drive's root has at least one element. */
  lemma CleanAbsShape(p: string) returns (stack: seq<string>)
    requires IsAbs(p)
    ensures CleanStack(stack, true)
    ensures Clean(p) == p[..2] + [SEPARATOR] + Join(stack, [SEPARATOR])
    ensures |Clean(p)| > 3 ==> |stack| > 0
  {
    stack := Resolve(Segments(p[2..]), true, []);
    assert Clean(p) == p[..2] + ([SEPARATOR] + Join(stack, [SEPARATOR]));
  }

  /** Cleaning a drive, a separator and an already cleaned element list changes nothing. */
  lemma CleanKeepsRootedStack(vol: string, stack: seq<string>)
    requires |vol| == 2 && vol[1] == ':' && IsLetter(vol[0])
    requires CleanStack(stack, true) && |stack| > 0
    ensures Clean(vol + [SEPARATOR] + Join(stack, [SEPARATOR])) == vol + [SEPARATOR] + Join(stack, [SEPARATOR])
  {
    var body := Join(stack, [SEPARATOR]);
    var q := vol + ([SEPARATOR] + body);
    assert q == vol + [SEPARATOR] + body;
    assert VolumeNameLen(q) == 2;
    assert q[2..] == [SEPARATOR] + body;
    SegmentsOfRooted(stack);
    var segs := Segments([SEPARATOR] + body);
    assert segs == [""] + stack;
    ResolveRootedStack(stack);
    assert Resolve(segs, true, []) == stack;
    assert q[..2] == vol;
    assert Clean(q) == q[..2] + ([SEPARATOR] + Join(Resolve(segs, true, []), [SEPARATOR]));
  }

  /** An empty root element followed by a cleaned element list resolves to that list. */
  lemma ResolveRootedStack(stack: seq<string>)
    requires CleanStack(stack, true)
    ensures Resolve([""] + stack, true, []) == stack
  {
    var elems := [""] + stack;
    assert elems[0] == "" && elems[1..] == stack;
    assert forall i :: 0 <= i < |stack| ==> PlainElement(stack[i]) && NoSep(stack[i]) by {
      forall i | 0 <= i < |stack| ensures PlainElement(stack[i]) && NoSep(stack[i]) {
        assert stack[i] != "..";
      }
    }
    assert [] + stack == stack;
    ResolvePlain(stack, true, []);
  }
}

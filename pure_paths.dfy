/** How Python's `pathlib.PurePosixPath` takes a path string apart: its
    anchor, its `parts`, its `name` and its `suffix`. */
module PurePaths {
  import opened Wrappers
  import opened Text

  /** The anchor: "//" for exactly two leading slashes (POSIX leaves that case
      implementation-defined, and pathlib keeps it), "/" for one slash or three
      or more, and "" for a relative path. */
  function Root(s: string): string {
    if |s| == 0 || s[0] != '/' then ""
    else if |s| >= 2 && s[1] == '/' && !(|s| >= 3 && s[2] == '/') then "//"
    else "/"
  }

  /** Drops the empty pieces (from repeated or trailing slashes) and the "."
      pieces, keeping the others in order. */
  function KeepComponents(pieces: seq<string>): (r: seq<string>)
    ensures |r| <= |pieces|
    ensures forall i :: 0 <= i < |r| ==> r[i] != "" && r[i] != "." && r[i] in pieces
    ensures forall p :: p in pieces && p != "" && p != "." ==> p in r
  {
    if |pieces| == 0 then []
    else
      var rest := KeepComponents(pieces[1..]);
      if pieces[0] == "" || pieces[0] == "." then rest else [pieces[0]] + rest
  }

  /** A single piece is kept exactly when it is neither empty nor ".". */
  lemma KeepComponentsSingle(p: string)
    ensures KeepComponents([p]) == if p == "" || p == "." then [] else [p]
  {
    assert [p][1..] == [];
  }

  /** Keeping components distributes over concatenation, so, with
      `KeepComponentsSingle`, it keeps every other piece in order and with its
      multiplicity. */
  lemma {:induction false} KeepComponentsConcat(a: seq<string>, b: seq<string>)
    ensures KeepComponents(a + b) == KeepComponents(a) + KeepComponents(b)
    decreases |a|
  {
    if |a| > 0 {
      assert (a + b)[1..] == a[1..] + b;
      KeepComponentsConcat(a[1..], b);
    } else {
      assert a + b == b;
    }
  }

  /** The path's components after the anchor: no component is empty or ".",
      and none contains a slash. */
  function Components(s: string): (r: seq<string>)
    ensures forall i :: 0 <= i < |r| ==> r[i] != "" && r[i] != "." && '/' !in r[i]
  {
    KeepComponents(Split(s, '/'))
  }

  /** `PurePosixPath(s).parts`: the anchor, if any, followed by the components. */
  function Parts(s: string): seq<string> {
    (if Root(s) == "" then [] else [Root(s)]) + Components(s)
  }

  /** `PurePosixPath(s).name`: the last component, or "" when there is none. */
  function Name(s: string): string {
    var c := Components(s);
    if |c| == 0 then "" else c[|c| - 1]
  }

  /** `s.rfind(c)`: the index of the last occurrence of `c`, if any. */
  function LastIndexOf(s: string, c: char): (r: Option<nat>)
    ensures r.None? <==> c !in s
    ensures r.Some? ==> r.value < |s| && s[r.value] == c && c !in s[r.value + 1..]
  {
    if |s| == 0 then None
    else if s[|s| - 1] == c then Some(|s| - 1)
    else
      var r := LastIndexOf(s[..|s| - 1], c);
      if r.Some? then
        assert s[r.value + 1..] == s[..|s| - 1][r.value + 1..] + [s[|s| - 1]];
        r
      else
        r
  }

  /** `PurePosixPath(s).suffix`: the name from its last dot on, provided that dot
      is neither the first nor the last character of the name; otherwise "". */
  function Suffix(s: string): (r: string)
    ensures r != "" ==> 2 <= |r| < |Name(s)| && r[0] == '.' && '.' !in r[1..] && EndsWith(Name(s), r)
  {
    var name := Name(s);
    match LastIndexOf(name, '.')
    case None => ""
    case Some(i) =>
      if 0 < i < |name| - 1 then
        assert name[i..][1..] == name[i + 1..];
        name[i..]
      else
        ""
  }

  /** A single relative component is its own name and its only part. */
  lemma PlainName(s: string)
    requires s != "" && s != "." && '/' !in s
    ensures Name(s) == s && Parts(s) == [s]
  {
    SplitNoSep(s, '/');
    assert [s][1..] == [];
  }

  /** The last occurrence of `c` is the one not followed by another. */
  lemma {:induction false} LastIndexOfAfter(a: string, b: string, c: char)
    requires c !in b
    ensures LastIndexOf(a + [c] + b, c) == Some(|a|)
    decreases |b|
  {
    var s := a + [c] + b;
    if |b| > 0 {
      var b' := b[..|b| - 1];
      assert s[..|s| - 1] == a + [c] + b';
      assert s[|s| - 1] == b[|b| - 1];
      LastIndexOfAfter(a, b', c);
    }
  }

  /** `PurePosixPath("stem.ext").suffix == ".ext"`. */
  lemma SuffixOfName(stem: string, ext: string)
    requires |stem| > 0 && |ext| > 0 && '/' !in stem && '/' !in ext && '.' !in ext
    ensures Suffix(stem + "." + ext) == "." + ext
  {
    var name := stem + "." + ext;
    assert Name(name) == name by {
      assert '/' !in name by {
        forall k | 0 <= k < |name| ensures name[k] != '/' {
          if k < |stem| { assert name[k] == stem[k]; }
          else if k > |stem| { assert name[k] == ext[k - |stem| - 1]; }
        }
      }
      PlainName(name);
    }
    assert LastIndexOf(name, '.') == Some(|stem|) by {
      assert name == stem + ['.'] + ext;
      LastIndexOfAfter(stem, ext, '.');
    }
    assert name[|stem|..] == "." + ext;
  }

  /** A name that starts with its only dot has no suffix: `PurePosixPath(".ext").suffix == ""`. */
  lemma HiddenNameHasNoSuffix(ext: string)
    requires |ext| > 0 && '/' !in ext && '.' !in ext
    ensures Suffix("." + ext) == ""
  {
    var name := "." + ext;
    PlainName(name);
    LastIndexOfAfter("", ext, '.');
    assert "" + ['.'] + ext == name;
  }
}

/**
  The two string operations the server applies to request data: trimming the
  slashes off a URL path (Go's `strings.Trim(path, "/")`) and splitting a
  header value into whitespace-separated fields (Go's `strings.Fields`).
 */
module Text {

  // ---------------------------------------------------------------------------
  // Trimming slashes
  // ---------------------------------------------------------------------------

  /** Drops every leading '/'; what is left is a suffix of `s` that does not start with '/'. */
  function TrimLeftSlashes(s: string): (r: string)
    ensures |r| <= |s| && r == s[|s| - |r|..]
    ensures forall i | 0 <= i < |s| - |r| :: s[i] == '/'
    ensures r == [] || r[0] != '/'
    decreases |s|
  {
    if s != [] && s[0] == '/' then
      var r := TrimLeftSlashes(s[1..]);
      assert forall i | 1 <= i < |s| :: s[i] == s[1..][i - 1];
      r
    else s
  }

  /** Drops every trailing '/'; what is left is a prefix of `s` that does not end with '/'. */
  function TrimRightSlashes(s: string): (r: string)
    ensures |r| <= |s| && r == s[..|r|]
    ensures forall i | |r| <= i < |s| :: s[i] == '/'
    ensures r == [] || r[|r| - 1] != '/'
    decreases |s|
  {
    if s != [] && s[|s| - 1] == '/' then
      var r := TrimRightSlashes(s[..|s| - 1]);
      assert forall i | 0 <= i < |s| - 1 :: s[i] == s[..|s| - 1][i];
      r
    else s
  }

  /** `strings.Trim(s, "/")`: the leading run of slashes goes first, then the trailing run. */
  function TrimSlashes(s: string): (r: string)
    ensures r == [] || (r[0] != '/' && r[|r| - 1] != '/')
  {
    var l := TrimLeftSlashes(s);
    var r := TrimRightSlashes(l);
    assert r != [] ==> r[0] == l[0];
    r
  }

  /** The trimmed path is the infix of `s` that starts at `lead` and only slashes lie around it,
      so every slash inside the path is kept. */
  lemma TrimSlashesIsInfix(s: string) returns (lead: nat)
    ensures lead + |TrimSlashes(s)| <= |s|
    ensures s[lead..lead + |TrimSlashes(s)|] == TrimSlashes(s)
    ensures forall i | 0 <= i < lead :: s[i] == '/'
    ensures forall i | lead + |TrimSlashes(s)| <= i < |s| :: s[i] == '/'
  {
    var l := TrimLeftSlashes(s);
    var r := TrimSlashes(s);
    lead := |s| - |l|;
    assert r == l[..|r|];
    assert s[lead..] == l;
    assert s[lead..lead + |r|] == l[..|r|];
    forall i | lead + |r| <= i < |s|
      ensures s[i] == '/'
    {
      assert s[i] == l[i - lead];
    }
  }

  /** A string that neither starts nor ends with '/' is left as it is. */
  lemma TrimSlashesKeepsTrimmed(s: string)
    requires s == [] || (s[0] != '/' && s[|s| - 1] != '/')
    ensures TrimSlashes(s) == s
  {
    assert TrimLeftSlashes(s) == s;
    assert TrimRightSlashes(s) == s;
  }

  /** Trimming twice is trimming once. */
  lemma TrimSlashesIdempotent(s: string)
    ensures TrimSlashes(TrimSlashes(s)) == TrimSlashes(s)
  {
    TrimSlashesKeepsTrimmed(TrimSlashes(s));
  }

  /** The request path "/name" reaches the name itself. */
  lemma TrimSlashesOfRequestPath(name: string)
    requires name == [] || (name[0] != '/' && name[|name| - 1] != '/')
    ensures TrimSlashes("/" + name) == name
  {
    assert ("/" + name)[1..] == name;
    assert TrimLeftSlashes("/" + name) == TrimLeftSlashes(name);
  }

  // ---------------------------------------------------------------------------
  // Splitting into fields
  // ---------------------------------------------------------------------------

  /** Go's `unicode.IsSpace`: the Latin-1 spaces and the other characters with the
      Unicode White_Space property. */
  const SpaceChars: string :=
    " \t\n\U{000B}\U{000C}\r\U{0085}\U{00A0}\U{1680}"
    + "\U{2000}\U{2001}\U{2002}\U{2003}\U{2004}\U{2005}\U{2006}\U{2007}\U{2008}\U{2009}\U{200A}"
    + "\U{2028}\U{2029}\U{202F}\U{205F}\U{3000}"

  predicate IsSpace(c: char)
  {
    Occurs(c, SpaceChars)
  }

  /** `c` is one of the characters of `s`. */
  predicate Occurs(c: char, s: string)
  {
    s != [] && (s[0] == c || Occurs(c, s[1..]))
  }

  /** Whitespace is either an ASCII control character or the space, or lies beyond
      the ASCII range: printable ASCII other than ' ' is never whitespace. */
  lemma SpaceOutsidePrintable(c: char)
    requires IsSpace(c)
    ensures c as int <= 32 || c as int >= 0x85
  {
    var i := OccursAt(c, SpaceChars);
    assert forall k | 0 <= k < |SpaceChars| :: SpaceChars[k] as int <= 32 || SpaceChars[k] as int >= 0x85;
  }

  /** The position at which `c` occurs in `s`. */
  lemma {:induction false} OccursAt(c: char, s: string) returns (i: nat)
    requires Occurs(c, s)
    ensures i < |s| && s[i] == c
    decreases |s|
  {
    if s[0] == c {
      i := 0;
    } else {
      var j := OccursAt(c, s[1..]);
      i := j + 1;
    }
  }

  /** A non-empty run of non-space characters. */
  predicate IsField(f: string)
  {
    f != [] && forall i | 0 <= i < |f| :: !IsSpace(f[i])
  }

  /** Drops the leading whitespace of `s`. */
  function SkipSpaces(s: string): (r: string)
    ensures |r| <= |s| && r == s[|s| - |r|..]
    ensures forall i | 0 <= i < |s| - |r| :: IsSpace(s[i])
    ensures r == [] || !IsSpace(r[0])
    decreases |s|
  {
    if s != [] && IsSpace(s[0]) then
      var r := SkipSpaces(s[1..]);
      assert forall i | 1 <= i < |s| :: s[i] == s[1..][i - 1];
      r
    else s
  }

  /** The longest prefix of `s` holding no whitespace. */
  function Word(s: string): (w: string)
    ensures |w| <= |s| && w == s[..|w|]
    ensures forall i | 0 <= i < |w| :: !IsSpace(w[i])
    ensures |w| == |s| || IsSpace(s[|w|])
    ensures s != [] && !IsSpace(s[0]) ==> w != []
    decreases |s|
  {
    if s == [] || IsSpace(s[0]) then "" else [s[0]] + Word(s[1..])
  }

  /** `strings.Fields`: the maximal runs of non-space characters, in order. */
  function Fields(s: string): (fs: seq<string>)
    ensures forall k | 0 <= k < |fs| :: IsField(fs[k])
    decreases |s|
  {
    var t := SkipSpaces(s);
    if t == [] then []
    else
      var w := Word(t);
      assert |w| > 0;
      var rest := Fields(t[|w|..]);
      assert IsField(w);
      FieldsCons(w, rest);
      [w] + rest
  }

  /** Putting a field in front of fields gives fields. */
  lemma FieldsCons(w: string, rest: seq<string>)
    requires IsField(w) && forall k | 0 <= k < |rest| :: IsField(rest[k])
    ensures forall k | 0 <= k < |[w] + rest| :: IsField(([w] + rest)[k])
  {
    var fs := [w] + rest;
    forall k | 0 <= k < |fs|
      ensures IsField(fs[k])
    {
      if k > 0 {
        assert fs[k] == rest[k - 1];
      }
    }
  }

  /** The fields separated by single spaces: the shape of an `Authorization` header. */
  function JoinWithSpaces(fs: seq<string>): string
  {
    if fs == [] then ""
    else if |fs| == 1 then fs[0]
    else fs[0] + ([' '] + JoinWithSpaces(fs[1..]))
  }

  /** Leading whitespace does not change the fields. */
  lemma FieldsAfterSpace(c: char, s: string)
    requires IsSpace(c)
    ensures Fields([c] + s) == Fields(s)
  {
    assert ([c] + s)[1..] == s;
  }

  /** The word of a field followed by nothing, or by whitespace, is that field. */
  lemma {:induction false} WordOfField(f: string, rest: string)
    requires IsField(f)
    requires rest == [] || IsSpace(rest[0])
    ensures Word(f + rest) == f
    decreases |f|
  {
    assert (f + rest)[0] == f[0];
    if |f| > 1 {
      assert (f + rest)[1..] == f[1..] + rest;
      WordOfField(f[1..], rest);
    } else {
      assert (f + rest)[1..] == rest;
    }
  }

  /** A field followed by nothing, or by whitespace, is the first field. */
  lemma FieldsOfFieldThen(f: string, rest: string)
    requires IsField(f)
    requires rest == [] || IsSpace(rest[0])
    ensures Fields(f + rest) == [f] + Fields(rest)
  {
    var s := f + rest;
    assert s[0] == f[0];
    assert SkipSpaces(s) == s;
    WordOfField(f, rest);
    assert s[|f|..] == rest;
  }

  /** Splitting undoes joining: `Fields` recovers every field of a single-space join. */
  lemma {:induction false} FieldsOfJoin(fs: seq<string>)
    requires forall k | 0 <= k < |fs| :: IsField(fs[k])
    ensures Fields(JoinWithSpaces(fs)) == fs
    decreases |fs|
  {
    if fs == [] {
    } else if |fs| == 1 {
      FieldsOfFieldThen(fs[0], "");
      assert fs[0] + "" == fs[0];
      assert Fields("") == [];
      assert Fields(JoinWithSpaces(fs)) == [fs[0]];
    } else {
      var tail := fs[1..];
      assert forall k | 0 <= k < |tail| :: IsField(tail[k]) by {
        forall k | 0 <= k < |tail| ensures IsField(tail[k]) { assert tail[k] == fs[k + 1]; }
      }
      var rest := JoinWithSpaces(tail);
      assert IsSpace(' ');
      FieldsOfFieldThen(fs[0], [' '] + rest);
      FieldsAfterSpace(' ', rest);
      FieldsOfJoin(tail);
      HeadAndTail(fs);
      assert JoinWithSpaces(fs) == fs[0] + ([' '] + rest);
      assert Fields(JoinWithSpaces(fs)) == [fs[0]] + tail;
    }
  }

  lemma HeadAndTail<T>(s: seq<T>)
    requires s != []
    ensures [s[0]] + s[1..] == s
  {
  }
}

/** String helpers shared by the exporter model: ASCII case mapping,
    `str.split('/')` and `'/'.join`, POSIX `os.path.join`, substring tests
    and `str.replace`. Strings are `seq<char>`. */
module Text {

  /** `c.lower()` restricted to ASCII letters. */
  function LowerChar(c: char): char {
    if 'A' <= c <= 'Z' then (c as int - 'A' as int + 'a' as int) as char else c
  }

  /** `c.upper()` restricted to ASCII letters. */
  function UpperChar(c: char): char {
    if 'a' <= c <= 'z' then (c as int - 'a' as int + 'A' as int) as char else c
  }

  function Lower(s: string): (r: string)
    ensures |r| == |s|
  {
    if |s| == 0 then "" else [LowerChar(s[0])] + Lower(s[1..])
  }

  function Upper(s: string): (r: string)
    ensures |r| == |s|
  {
    if |s| == 0 then "" else [UpperChar(s[0])] + Upper(s[1..])
  }

  /** Lower-casing a string that is already lower case changes nothing. */
  lemma {:induction false} LowerIdempotent(s: string)
    ensures Lower(Lower(s)) == Lower(s)
  {
    if |s| > 0 {
      LowerIdempotent(s[1..]);
      assert Lower(Lower(s)) == [LowerChar(LowerChar(s[0]))] + Lower(Lower(s[1..]));
    }
  }

  /** Case mapping works character by character, so it distributes over
      concatenation. */
  lemma {:induction false} LowerAppend(s: string, t: string)
    ensures Lower(s + t) == Lower(s) + Lower(t)
  {
    if |s| > 0 {
      LowerAppend(s[1..], t);
      assert (s + t)[1..] == s[1..] + t;
    } else {
      assert s + t == t;
    }
  }

  // ---------------------------------------------------------------------------
  // str.split('/') and '/'.join(parts)

  /** `s.split('/')`: never empty, and no part contains the separator. */
  function Split(s: string): (parts: seq<string>)
    ensures |parts| >= 1
    ensures forall k :: 0 <= k < |parts| ==> '/' !in parts[k]
  {
    if |s| == 0 then [""]
    else if s[0] == '/' then [""] + Split(s[1..])
    else
      var rest := Split(s[1..]);
      [[s[0]] + rest[0]] + rest[1..]
  }

  /** `'/'.join(parts)` */
  function Join(parts: seq<string>): string
    requires |parts| >= 1
  {
    if |parts| == 1 then parts[0] else parts[0] + "/" + Join(parts[1..])
  }

  /** Joining the parts of a split gives the original string back. */
  lemma {:induction false} JoinSplit(s: string)
    ensures Join(Split(s)) == s
  {
    if |s| == 0 {
    } else if s[0] == '/' {
      JoinSplit(s[1..]);
      assert s == [s[0]] + s[1..];
    } else {
      var rest := Split(s[1..]);
      JoinSplit(s[1..]);
      if |rest| == 1 {
        assert Join(Split(s)) == [s[0]] + rest[0];
      } else {
        assert Split(s)[1..] == rest[1..];
        assert Join(Split(s)) == ([s[0]] + rest[0]) + "/" + Join(rest[1..]);
        assert Join(rest) == rest[0] + "/" + Join(rest[1..]);
      }
      assert s == [s[0]] + s[1..];
    }
  }

  /** Splitting a string that starts with a separator-free prefix `a`. */
  lemma {:induction false} SplitPrefix(a: string, t: string)
    requires '/' !in a
    ensures Split(a + t) == [a + Split(t)[0]] + Split(t)[1..]
  {
    if |a| > 0 {
      SplitPrefix(a[1..], t);
      assert (a + t)[1..] == a[1..] + t;
      assert a[0] in a && (a + t)[0] == a[0];
      var rest := Split(a[1..] + t);
      assert Split(a + t) == [[a[0]] + rest[0]] + rest[1..];
      assert [a[0]] + (a[1..] + Split(t)[0]) == a + Split(t)[0];
    } else {
      assert a + t == t;
      assert a + Split(t)[0] == Split(t)[0];
      assert Split(t) == [Split(t)[0]] + Split(t)[1..];
    }
  }

  /** Splitting a join of separator-free parts gives the parts back. */
  lemma {:induction false} SplitJoin(parts: seq<string>)
    requires |parts| >= 1
    requires forall k :: 0 <= k < |parts| ==> '/' !in parts[k]
    ensures Split(Join(parts)) == parts
  {
    if |parts| == 1 {
      SplitPrefix(parts[0], "");
      assert parts[0] + "" == parts[0];
    } else {
      var tail := Join(parts[1..]);
      SplitJoin(parts[1..]);
      assert ("/" + tail)[1..] == tail;
      assert Split("/" + tail) == [""] + parts[1..];
      SplitPrefix(parts[0], "/" + tail);
      assert parts[0] + "/" + tail == parts[0] + ("/" + tail);
      assert parts[0] + "" == parts[0];
      assert parts == [parts[0]] + parts[1..];
    }
  }

  /** A string starting with '/' splits into a first part that is empty. */
  lemma AbsoluteSplitsEmptyFirst(s: string)
    requires |s| > 0 && s[0] == '/'
    ensures Split(s)[0] == ""
  {
  }

  // ---------------------------------------------------------------------------
  // os.path.join on POSIX

  /** `os.path.join(a, b)`: an absolute `b` replaces `a`; otherwise a separator
      is inserted unless `a` is empty or already ends with one. */
  function JoinTwo(a: string, b: string): string {
    if |b| > 0 && b[0] == '/' then b
    else if |a| == 0 || a[|a| - 1] == '/' then a + b
    else a + "/" + b
  }

  /** `os.path.join(first, *rest)` */
  function PathJoin(first: string, rest: seq<string>): string
    decreases |rest|
  {
    if |rest| == 0 then first else PathJoin(JoinTwo(first, rest[0]), rest[1..])
  }

  ghost predicate NoSlashAnywhere(parts: seq<string>) {
    forall k :: 0 <= k < |parts| ==> '/' !in parts[k]
  }

  ghost predicate AllNonEmpty(parts: seq<string>) {
    forall k :: 0 <= k < |parts| ==> parts[k] != ""
  }

  /** With a first part that does not end in '/', and only non-empty,
      separator-free later parts, `os.path.join` is `'/'.join`. */
  lemma {:induction false} PathJoinIsJoin(first: string, rest: seq<string>)
    requires |first| > 0 && first[|first| - 1] != '/'
    requires NoSlashAnywhere(rest) && AllNonEmpty(rest)
    ensures PathJoin(first, rest) == Join([first] + rest)
    decreases |rest|
  {
    if |rest| > 0 {
      var next := first + "/" + rest[0];
      assert JoinTwo(first, rest[0]) == next;
      assert rest[0][|rest[0]| - 1] in rest[0];
      PathJoinIsJoin(next, rest[1..]);
      JoinAssoc(first, rest);
    }
  }

  lemma {:induction false} JoinAssoc(first: string, rest: seq<string>)
    requires |rest| > 0
    ensures Join([first + "/" + rest[0]] + rest[1..]) == Join([first] + rest)
    decreases |rest|
  {
    var xs := [first] + rest;
    assert xs[1..] == rest;
    if |rest| == 1 {
      assert [first + "/" + rest[0]] + rest[1..] == [first + "/" + rest[0]];
    } else {
      var ys := [first + "/" + rest[0]] + rest[1..];
      assert ys[1..] == rest[1..];
      assert Join(rest) == rest[0] + "/" + Join(rest[1..]);
    }
  }

  /** `os.path.join` of non-empty, separator-free parts ends with the last
      part, so the result is non-empty and does not end in '/'. */
  lemma {:induction false} PathJoinEndsClean(first: string, rest: seq<string>)
    requires |rest| > 0 && NoSlashAnywhere(rest) && AllNonEmpty(rest)
    ensures var p := PathJoin(first, rest); |p| > 0 && p[|p| - 1] != '/'
    decreases |rest|
  {
    var next := JoinTwo(first, rest[0]);
    assert rest[0][0] in rest[0];
    assert rest[0][|rest[0]| - 1] in rest[0];
    assert next[|next| - 1] == rest[0][|rest[0]| - 1];
    if |rest| > 1 {
      PathJoinEndsClean(next, rest[1..]);
    }
  }

  // ---------------------------------------------------------------------------
  // os.path.dirname on POSIX

  /** The length of the part of `p` up to and including its last '/', or 0
      when there is none. */
  function LastSlashEnd(p: string): (n: nat)
    ensures n <= |p|
    ensures n > 0 ==> p[n - 1] == '/'
  {
    if |p| == 0 then 0
    else if p[|p| - 1] == '/' then |p|
    else LastSlashEnd(p[..|p| - 1])
  }

  function StripTrailingSlashes(s: string): (r: string)
    ensures |r| <= |s| && r == s[..|r|]
    ensures |r| == 0 || r[|r| - 1] != '/'
  {
    if |s| > 0 && s[|s| - 1] == '/' then StripTrailingSlashes(s[..|s| - 1]) else s
  }

  predicate AllSlashes(s: string) {
    forall k :: 0 <= k < |s| ==> s[k] == '/'
  }

  /** `os.path.dirname`: everything before the last '/', with the trailing
      separators removed unless it consists of separators only. */
  function Dirname(p: string): string {
    var head := p[..LastSlashEnd(p)];
    if |head| > 0 && !AllSlashes(head) then StripTrailingSlashes(head) else head
  }

  /** Text without a separator does not move the last separator. */
  lemma {:induction false} LastSlashEndAppend(p: string, s: string)
    requires '/' !in s
    ensures LastSlashEnd(p + s) == LastSlashEnd(p)
    decreases |s|
  {
    if |s| > 0 {
      var init := s[..|s| - 1];
      assert s[|s| - 1] in s;
      assert '/' !in init by {
        forall k | 0 <= k < |init| ensures init[k] != '/' { assert init[k] == s[k]; }
      }
      assert (p + s)[..|p + s| - 1] == p + init;
      LastSlashEndAppend(p, init);
    } else {
      assert p + s == p;
    }
  }

  /** The parent of a separator-free name joined under a directory that does
      not end in '/' is that directory. */
  lemma DirnameOfChild(dir: string, name: string)
    requires |dir| > 0 && dir[|dir| - 1] != '/'
    requires '/' !in name
    ensures Dirname(JoinTwo(dir, name)) == dir
  {
    if |name| > 0 {
      assert name[0] in name;
    }
    var p := JoinTwo(dir, name);
    assert p == (dir + "/") + name;
    LastSlashEndAppend(dir + "/", name);
    assert LastSlashEnd(dir + "/") == |dir| + 1;
    var head := p[..|dir| + 1];
    assert head == dir + "/";
    assert !AllSlashes(head) by {
      assert head[|dir| - 1] == dir[|dir| - 1];
    }
    assert head[..|head| - 1] == dir;
    assert StripTrailingSlashes(dir) == dir;
    assert StripTrailingSlashes(head) == dir;
    assert Dirname(p) == StripTrailingSlashes(head);
  }

  /** Two paths that differ only after their last separator have the same
      parent. */
  lemma DirnameSameParent(p: string, s: string, t: string)
    requires '/' !in s && '/' !in t
    ensures Dirname(p + s) == Dirname(p + t)
  {
    LastSlashEndAppend(p, s);
    LastSlashEndAppend(p, t);
    var m := LastSlashEnd(p);
    assert (p + s)[..m] == p[..m] == (p + t)[..m];
  }

  /** `os.path.join` keeps its first argument as a prefix while no later part
      is absolute. */
  lemma {:induction false} PathJoinKeepsPrefix(first: string, rest: seq<string>)
    requires NoSlashAnywhere(rest)
    ensures |first| <= |PathJoin(first, rest)|
    ensures PathJoin(first, rest)[..|first|] == first
    decreases |rest|
  {
    if |rest| > 0 {
      var next := JoinTwo(first, rest[0]);
      assert |rest[0]| > 0 ==> rest[0][0] in rest[0];
      assert next[..|first|] == first;
      PathJoinKeepsPrefix(next, rest[1..]);
      assert PathJoin(first, rest) == PathJoin(next, rest[1..]);
      var r := PathJoin(next, rest[1..]);
      assert r[..|first|] == r[..|next|][..|first|];
    }
  }

  // ---------------------------------------------------------------------------
  // `w in s` and `s.replace(old, new)`

  ghost predicate StartsWith(s: string, w: string) {
    |w| <= |s| && s[..|w|] == w
  }

  /** `w in s` for strings. */
  function Contains(s: string, w: string): bool
    decreases |s|
  {
    |w| <= |s| && (s[..|w|] == w || Contains(s[1..], w))
  }

  /** Containment survives appending text on the right. */
  lemma {:induction false} ContainsAppend(s: string, t: string, w: string)
    requires Contains(s, w)
    ensures Contains(s + t, w)
    decreases |s|
  {
    assert (s + t)[..|w|] == s[..|w|];
    if s[..|w|] != w {
      ContainsAppend(s[1..], t, w);
      assert (s + t)[1..] == s[1..] + t;
    }
  }

  /** Containment survives prepending text on the left. */
  lemma {:induction false} ContainsPrepend(t: string, s: string, w: string)
    requires Contains(s, w)
    ensures Contains(t + s, w)
    decreases |t|
  {
    if |t| > 0 {
      ContainsPrepend(t[1..], s, w);
      assert (t + s)[1..] == t[1..] + s;
    } else {
      assert t + s == s;
    }
  }

  /** `s.replace(old, new)`: leftmost, non-overlapping occurrences. */
  function ReplaceAll(s: string, pat: string, rep: string): string
    requires |pat| > 0
    decreases |s|
  {
    if |s| == 0 then ""
    else if |pat| <= |s| && s[..|pat|] == pat then rep + ReplaceAll(s[|pat|..], pat, rep)
    else [s[0]] + ReplaceAll(s[1..], pat, rep)
  }

  /** A string without an occurrence of `pat` is left unchanged. */
  lemma {:induction false} ReplaceAbsent(s: string, pat: string, rep: string)
    requires |pat| > 0 && !Contains(s, pat)
    ensures ReplaceAll(s, pat, rep) == s
    decreases |s|
  {
    if |s| > 0 {
      ReplaceAbsent(s[1..], pat, rep);
      assert s == [s[0]] + s[1..];
    }
  }

  lemma {:induction false} NoMatchBehind(p: string, x: string, w: string)
    requires |w| > 0 && w[0] !in p && !Contains(x, w)
    ensures !Contains(p + x, w)
    decreases |p|
  {
    if |p| > 0 {
      NoMatchBehind(p[1..], x, w);
      assert (p + x)[1..] == p[1..] + x;
      assert (p + x)[0] == p[0];
    } else {
      assert p + x == x;
    }
  }

  /** If the replaced text starts with `w`, and `w` does not hold the first
      character of the replacement, the original text started with `w`. */
  lemma {:induction false} ReplacePrefixBack(t: string, pat: string, rep: string, w: string)
    requires |pat| > 0 && |rep| > 0 && rep[0] !in w
    requires StartsWith(ReplaceAll(t, pat, rep), w)
    ensures StartsWith(t, w)
    decreases |t|
  {
    var r := ReplaceAll(t, pat, rep);
    if |w| > 0 {
      assert r[0] == w[0] && w[0] in w;
      // the replacement is not at the front, since `w` lacks its first character
      assert !(|pat| <= |t| && t[..|pat|] == pat);
      assert r == [t[0]] + ReplaceAll(t[1..], pat, rep);
      assert StartsWith(ReplaceAll(t[1..], pat, rep), w[1..]) by {
        assert r[1..][..|w| - 1] == r[..|w|][1..];
      }
      assert forall c :: c in w[1..] ==> c in w;
      ReplacePrefixBack(t[1..], pat, rep, w[1..]);
      assert t[..|w|] == [t[0]] + t[1..][..|w| - 1];
      assert w == [w[0]] + w[1..];
    }
  }

  /** After `replace(pat, rep)` no `pat` remains, provided the replacement
      shares neither boundary character with `pat`
      (true of "unknown" and "climate_data"). */
  lemma {:induction false} ReplaceRemovesAll(s: string, pat: string, rep: string)
    requires |pat| > 0 && |rep| > 0
    requires pat[0] !in rep && rep[0] !in pat
    ensures !Contains(ReplaceAll(s, pat, rep), pat)
    decreases |s|
  {
    if |s| > 0 {
      if |pat| <= |s| && s[..|pat|] == pat {
        ReplaceRemovesAll(s[|pat|..], pat, rep);
        NoMatchBehind(rep, ReplaceAll(s[|pat|..], pat, rep), pat);
      } else {
        var rest := ReplaceAll(s[1..], pat, rep);
        ReplaceRemovesAll(s[1..], pat, rep);
        var r := [s[0]] + rest;
        if |pat| <= |r| && r[..|pat|] == pat {
          assert s[0] == pat[0];
          assert StartsWith(rest, pat[1..]) by {
            assert rest[..|pat| - 1] == r[..|pat|][1..];
          }
          assert forall c :: c in pat[1..] ==> c in pat;
          assert pat == [pat[0]] + pat[1..];
          ReplacePrefixBack(s[1..], pat, rep, pat[1..]);
          assert false;
        }
        assert r[1..] == rest;
      }
    }
  }
}

/** The string operations of Python 2 that the program relies on, written out:
    `os.path.join`, `os.path.basename`, `str.split`, `" ".join`, `str.rstrip`,
    `str.replace` and `%` formatting with `%s` and `%%`. */
module Strings {
  import opened Base

  predicate StartsWith(s: string, prefix: string)
  {
    prefix <= s
  }

  predicate EndsWith(s: string, suffix: string)
  {
    |suffix| <= |s| && s[|s| - |suffix|..] == suffix
  }

  /** `os.path.join(a, b)` on POSIX: an absolute `b` wins; otherwise a single
      "/" is inserted unless `a` is empty or already ends with one. */
  function PathJoin(a: string, b: string): (r: string)
    ensures EndsWith(r, b)
    ensures StartsWith(b, "/") ==> r == b
    ensures !StartsWith(b, "/") ==> StartsWith(r, a) && |r| <= |a| + 1 + |b|
  {
    if StartsWith(b, "/") then b
    else if a == "" || EndsWith(a, "/") then a + b
    else a + "/" + b
  }

  /** `os.path.join(a, *rest)` where any argument may be None: the parts are
      joined from left to right; a None part, or a None path still in front
      of a relative part, raises AttributeError. */
  function JoinAll(a: Option<string>, rest: seq<Option<string>>): (r: Result<string>)
    requires rest != []
    ensures r.Failure? ==> r.error == AttributeError
    ensures r.Success? ==> forall i :: 0 <= i < |rest| ==> rest[i].Some?
    ensures r.Success? <==> (forall i :: 0 <= i < |rest| ==> rest[i].Some?)
                            && (a.Some? || StartsWith(rest[0].value, "/"))
    decreases |rest|
  {
    var b := rest[0];
    if b.None? then Failure(AttributeError)
    else
      var path := if StartsWith(b.value, "/") then Some(b.value)
                  else if a.None? then None
                  else Some(PathJoin(a.value, b.value));
      if path.None? then Failure(AttributeError)
      else if |rest| == 1 then Success(path.value)
      else JoinAll(path, rest[1..])
  }

  /** Index just after the last "/" in `s`, or 0 when there is none. */
  function AfterLastSlash(s: string): (k: nat)
    ensures k <= |s|
    ensures k > 0 ==> s[k - 1] == '/'
    ensures forall i :: k <= i < |s| ==> s[i] != '/'
  {
    if s == [] then 0
    else if s[|s| - 1] == '/' then |s|
    else AfterLastSlash(s[..|s| - 1])
  }

  /** `os.path.basename(s)`: everything after the last "/". */
  function Basename(s: string): (r: string)
    ensures EndsWith(s, r)
    ensures '/' !in r
  {
    var k := AfterLastSlash(s);
    assert forall i :: 0 <= i < |s[k..]| ==> s[k..][i] == s[k + i];
    s[k..]
  }

  lemma BasenameOfJoin(dir: string, name: string)
    requires '/' !in name
    ensures Basename(PathJoin(dir, name)) == name
  {
    var p := PathJoin(dir, name);
    var k := AfterLastSlash(p);
    assert name == [] || name[0] != '/';
    assert !StartsWith(name, "/");
    if dir == "" || EndsWith(dir, "/") {
      assert p == dir + name;
    } else {
      assert p == dir + "/" + name;
    }
    assert p[|p| - |name|..] == name;
    assert forall i :: |p| - |name| <= i < |p| ==> p[i] == name[i - (|p| - |name|)];
    assert |p| == |name| || p[|p| - |name| - 1] == '/';
    assert k == |p| - |name|;
  }

  /** `sep.join(parts)`. */
  function JoinWith(sep: string, parts: seq<string>): (r: string)
    decreases |parts|
  {
    if parts == [] then ""
    else if |parts| == 1 then parts[0]
    else JoinWith(sep, parts[..|parts| - 1]) + sep + parts[|parts| - 1]
  }

  /** `s.split(c)` for a one-character separator: the pieces between the
      separators, always at least one. */
  function Split(s: string, c: char): (r: seq<string>)
    ensures |r| >= 1
    ensures forall i :: 0 <= i < |r| ==> c !in r[i]
  {
    if s == [] then [""]
    else
      var rest := Split(s[1..], c);
      if s[0] == c then [""] + rest
      else [[s[0]] + rest[0]] + rest[1..]
  }

  lemma JoinWithCons(sep: string, x: string, parts: seq<string>)
    requires parts != []
    ensures JoinWith(sep, [x] + parts) == x + sep + JoinWith(sep, parts)
    decreases |parts|
  {
    var all := [x] + parts;
    if |parts| == 1 {
      assert all[..1] == [x];
    } else {
      assert all[..|all| - 1] == [x] + parts[..|parts| - 1];
      JoinWithCons(sep, x, parts[..|parts| - 1]);
    }
  }

  /** Joining the pieces of a split with the separator gives back the string. */
  lemma {:induction false} JoinSplit(s: string, c: char)
    ensures JoinWith([c], Split(s, c)) == s
  {
    if s != [] {
      JoinSplitCons(s, c);
      JoinSplit(s[1..], c);
      assert s == [s[0]] + s[1..];
    }
  }

  /** Joining the split of a non-empty string gives its first character
      followed by the join of the split of the rest. */
  lemma JoinSplitCons(s: string, c: char)
    requires s != []
    ensures JoinWith([c], Split(s, c)) == [s[0]] + JoinWith([c], Split(s[1..], c))
  {
    var rest := Split(s[1..], c);
    if s[0] == c {
      assert Split(s, c) == [""] + rest;
      JoinWithCons([c], "", rest);
    } else if |rest| == 1 {
      assert Split(s, c) == [[s[0]] + rest[0]];
      assert JoinWith([c], rest) == rest[0];
    } else {
      var x := [s[0]] + rest[0];
      assert Split(s, c) == [x] + rest[1..];
      JoinWithCons([c], x, rest[1..]);
      assert rest == [rest[0]] + rest[1..];
      JoinWithCons([c], rest[0], rest[1..]);
      var tail := JoinWith([c], rest[1..]);
      assert x + [c] + tail == [s[0]] + (rest[0] + [c] + tail);
    }
  }

  /** Splitting a join gives back the parts when no part holds the separator. */
  lemma {:induction false} SplitJoin(parts: seq<string>, c: char)
    requires parts != []
    requires forall i :: 0 <= i < |parts| ==> c !in parts[i]
    ensures Split(JoinWith([c], parts), c) == parts
    decreases |parts|, |parts[0]|
  {
    if |parts| == 1 {
      SplitNoSeparator(parts[0], c);
    } else if parts[0] == "" {
      assert parts == [""] + parts[1..];
      JoinWithCons([c], "", parts[1..]);
      var s := JoinWith([c], parts);
      assert s == [c] + JoinWith([c], parts[1..]);
      assert s[1..] == JoinWith([c], parts[1..]);
      SplitJoin(parts[1..], c);
      assert parts == [""] + parts[1..];
    } else {
      var x := parts[0];
      assert parts == [x] + parts[1..];
      JoinWithCons([c], x, parts[1..]);
      var s := JoinWith([c], parts);
      assert s == x + [c] + JoinWith([c], parts[1..]);
      var parts' := [x[1..]] + parts[1..];
      JoinWithCons([c], x[1..], parts[1..]);
      assert s[1..] == JoinWith([c], parts');
      assert s[0] == x[0] && x[0] != c;
      SplitJoin(parts', c);
      assert [x[0]] + x[1..] == x;
      assert parts == [x] + parts'[1..];
    }
  }

  lemma {:induction false} SplitNoSeparator(s: string, c: char)
    requires c !in s
    ensures Split(s, c) == [s]
  {
    if s != [] {
      SplitNoSeparator(s[1..], c);
      assert [s[0]] + s[1..] == s;
    }
  }

  /** The regular-expression class `\w` on a byte string (no UNICODE flag). */
  predicate IsWordChar(c: char)
  {
    ('a' <= c <= 'z') || ('A' <= c <= 'Z') || ('0' <= c <= '9') || c == '_'
  }

  /** The characters `str.rstrip()` removes (Python 2 `str.isspace`). */
  predicate IsSpace(c: char)
  {
    c == ' ' || c == '\t' || c == '\n' || c == '\r' || c == '\U{0b}' || c == '\U{0c}'
  }

  /** The characters `unicode.rstrip()` removes (Python 2.7 `unicode.isspace`,
      Unicode 5.2): the ASCII controls tab to carriage return and the file,
      group, record and unit separators, space, next line, no-break space,
      the Ogham and Mongolian spaces, the spaces from en quad to hair space,
      the line and paragraph separators, the narrow no-break, medium
      mathematical and ideographic spaces. */
  predicate IsUnicodeSpace(c: char)
  {
    ('\U{09}' <= c <= '\U{0d}') || ('\U{1c}' <= c <= '\U{20}')
    || c == '\U{85}' || c == '\U{a0}' || c == '\U{1680}' || c == '\U{180e}'
    || ('\U{2000}' <= c <= '\U{200a}') || c == '\U{2028}' || c == '\U{2029}'
    || c == '\U{202f}' || c == '\U{205f}' || c == '\U{3000}'
  }

  /** `s.rstrip()` on the unicode text of a response: `s` without its
      trailing whitespace. */
  function RStrip(s: string): (r: string)
    ensures r <= s
    ensures r == [] || !IsUnicodeSpace(r[|r| - 1])
    ensures forall i :: |r| <= i < |s| ==> IsUnicodeSpace(s[i])
  {
    if s == [] || !IsUnicodeSpace(s[|s| - 1]) then s else RStrip(s[..|s| - 1])
  }

  /** `pat` starts at position `i` of `s`. */
  predicate OccursAt(s: string, pat: string, i: nat)
  {
    i + |pat| <= |s| && s[i..i + |pat|] == pat
  }

  /** `s.replace(pat, rep)`: every occurrence of `pat`, scanning left to right
      without overlaps, is replaced by `rep`. */
  function ReplaceAll(s: string, pat: string, rep: string): (r: string)
    requires pat != ""
    decreases |s|
  {
    if |s| < |pat| then s
    else if s[..|pat|] == pat then rep + ReplaceAll(s[|pat|..], pat, rep)
    else [s[0]] + ReplaceAll(s[1..], pat, rep)
  }

  /** Text in which `pat` never starts before position `k` passes through
      `replace` unchanged up to `k`. */
  lemma {:induction false} ReplaceSkips(s: string, pat: string, rep: string, k: nat)
    requires pat != "" && k <= |s|
    requires forall i :: 0 <= i < k ==> !OccursAt(s, pat, i)
    ensures ReplaceAll(s, pat, rep) == s[..k] + ReplaceAll(s[k..], pat, rep)
    decreases k
  {
    if k > 0 {
      assert !OccursAt(s, pat, 0);
      if |s| < |pat| {
        ReplaceShort(s[k..], pat, rep);
      } else {
        assert s[..|pat|] != pat;
        forall i | 0 <= i < k - 1 ensures !OccursAt(s[1..], pat, i) {
          assert !OccursAt(s, pat, i + 1);
          if i + |pat| <= |s[1..]| {
            assert s[1..][i..i + |pat|] == s[i + 1..i + 1 + |pat|];
          }
        }
        ReplaceSkips(s[1..], pat, rep, k - 1);
        assert s[1..][k - 1..] == s[k..];
        assert [s[0]] + s[1..][..k - 1] == s[..k];
      }
    }
  }

  lemma ReplaceShort(s: string, pat: string, rep: string)
    requires pat != "" && |s| < |pat|
    ensures ReplaceAll(s, pat, rep) == s
  {
  }

  /** Text without any occurrence of `pat` is left unchanged by `replace`. */
  lemma ReplaceAbsent(s: string, pat: string, rep: string)
    requires pat != ""
    requires forall i :: 0 <= i <= |s| ==> !OccursAt(s, pat, i)
    ensures ReplaceAll(s, pat, rep) == s
  {
    ReplaceSkips(s, pat, rep, |s|);
    assert s[|s|..] == [];
    assert s[..|s|] == s;
  }

  /** Python `fmt % tuple(args)` where the only conversions are `%s` and `%%`;
      any other use of "%", too few or too many arguments is an error. */
  function Format(fmt: string, args: seq<string>): (r: Option<string>)
    decreases |fmt|
  {
    if fmt == [] then (if args == [] then Some("") else None)
    else if fmt[0] != '%' then Prepend([fmt[0]], Format(fmt[1..], args))
    else if |fmt| == 1 then None
    else if fmt[1] == '%' then Prepend("%", Format(fmt[2..], args))
    else if fmt[1] == 's' && args != [] then Prepend(args[0], Format(fmt[2..], args[1..]))
    else None
  }

  function Prepend(p: string, x: Option<string>): (r: Option<string>)
    ensures r.Some? == x.Some?
    ensures r.Some? ==> r.value == p + x.value
  {
    match x
    case Some(s) => Some(p + s)
    case None => None
  }

  /** A literal piece without "%" is copied through by formatting. */
  lemma {:induction false} FormatLiteral(lit: string, rest: string, args: seq<string>)
    requires '%' !in lit
    ensures Format(lit + rest, args) == Prepend(lit, Format(rest, args))
    decreases |lit|
  {
    var s := lit + rest;
    if lit == [] {
      assert s == rest;
      match Format(rest, args)
      case None =>
      case Some(v) => assert lit + v == v;
    } else {
      assert lit[0] in lit;
      assert s[0] == lit[0] && s[0] != '%' && s[1..] == lit[1..] + rest;
      FormatLiteral(lit[1..], rest, args);
      assert Format(s, args) == Prepend([lit[0]], Format(lit[1..] + rest, args));
      match Format(rest, args)
      case None =>
      case Some(v) =>
        assert [lit[0]] + (lit[1..] + v) == lit + v;
    }
  }

  lemma FormatPercent(rest: string, args: seq<string>)
    ensures Format("%%" + rest, args) == Prepend("%", Format(rest, args))
  {
    var s := "%%" + rest;
    assert s[0] == '%' && s[1] == '%' && s[2..] == rest;
  }

  lemma FormatArg(rest: string, a: string, args: seq<string>)
    ensures Format("%s" + rest, [a] + args) == Prepend(a, Format(rest, args))
  {
    var s := "%s" + rest;
    assert s[0] == '%' && s[1] == 's' && s[2..] == rest;
    assert ([a] + args)[1..] == args;
  }
}

// The cache rules file: `axil_mmap_iter` and `axil_platform_cache_policy` scan
// a private mapping of the file and rewrite it as they go.
module Rules {
  import opened Text
  import opened Wrappers

  /** fnmatch(pattern, uri, 0) == 0, left open. */
  type Fnmatch = (string, string) -> bool

  // ---- What the file says ----

  predicate EndsLine(c: char) { c == '\n' || c == '\0' }

  function LineHead(s: string): (l: string)
    ensures |l| <= |s| && l == s[..|l|]
    ensures forall k :: 0 <= k < |l| ==> !EndsLine(l[k])
    ensures |l| < |s| ==> EndsLine(s[|l|])
  {
    if s == "" || EndsLine(s[0]) then "" else [s[0]] + LineHead(s[1..])
  }

  function Lines(s: string): seq<string>
    decreases |s|
  {
    if s == "" then []
    else
      var l := LineHead(s);
      [l] + Lines(if |l| < |s| then s[|l| + 1..] else "")
  }

  /** A line is a rule if a space separates a glob from a non-empty directive. */
  function Rule(line: string): Option<(string, string)> {
    var glob := Before(line, ' ');
    if |glob| + 1 < |line| then Some((glob, line[|glob| + 1..])) else None
  }

  predicate Applies(line: string, uri: string, fnmatch: Fnmatch) {
    Rule(line).Some? && fnmatch(Rule(line).value.0, uri)
  }

  function Strip(s: string): (r: string)
    ensures |r| <= |s|
  {
    if s == "" then ""
    else if s[0] == '\r' || s[0] == '\n' then Strip(s[1..])
    else [s[0]] + Strip(s[1..])
  }

  /** The directive of the first applicable rule. */
  function Directive(lines: seq<string>, uri: string, fnmatch: Fnmatch): Option<string> {
    if lines == [] then None
    else if Applies(lines[0], uri, fnmatch) then Some(Strip(Rule(lines[0]).value.1))
    else Directive(lines[1..], uri, fnmatch)
  }

  predicate FirstAt(lines: seq<string>, uri: string, fnmatch: Fnmatch, i: nat)
    requires i < |lines|
  {
    Applies(lines[i], uri, fnmatch) && forall j :: 0 <= j < i ==> !Applies(lines[j], uri, fnmatch)
  }

  /** It is the first one: some line applies, and none before it does. */
  lemma {:induction false} DirectiveIsFirst(lines: seq<string>, uri: string, fnmatch: Fnmatch)
    ensures match Directive(lines, uri, fnmatch)
            case None => forall i :: 0 <= i < |lines| ==> !Applies(lines[i], uri, fnmatch)
            case Some(d) => exists i :: 0 <= i < |lines| && FirstAt(lines, uri, fnmatch, i) && d == Strip(Rule(lines[i]).value.1)
  {
    if lines != [] && !Applies(lines[0], uri, fnmatch) {
      var rest := lines[1..];
      DirectiveIsFirst(rest, uri, fnmatch);
      if Directive(rest, uri, fnmatch).Some? {
        var i :| 0 <= i < |rest| && FirstAt(rest, uri, fnmatch, i) &&
                 Directive(rest, uri, fnmatch).value == Strip(Rule(rest[i]).value.1);
        assert forall j :: 0 < j <= i + 1 ==> lines[j] == rest[j - 1];
        assert FirstAt(lines, uri, fnmatch, i + 1);
      } else {
        assert forall i :: 0 < i < |lines| ==> lines[i] == rest[i - 1];
      }
    } else if lines != [] {
      assert FirstAt(lines, uri, fnmatch, 0);
    }
  }

  // ---- The code ----

  lemma StripFirst(s: string, i: nat)
    requires i < |s|
    ensures Strip(s[i..]) ==
            if s[i] == '\r' || s[i] == '\n' then Strip(s[i+1..]) else [s[i]] + Strip(s[i+1..])
  {
    assert s[i..][1..] == s[i+1..];
  }

  /** The loop of `cache_directive_copy`; `rest` is what no longer fits. */
  method CopyInto(src: string, dst: array<char>) returns (j: nat, ghost rest: string)
    requires dst.Length > 0
    modifies dst
    ensures j < dst.Length && Strip(src) == dst[..j] + rest
    ensures rest != "" ==> j == dst.Length - 1
  {
    var i := 0;
    j, rest := 0, Strip(src);
    assert src[0..] == src;
    while i < |src| && j < dst.Length - 1
      invariant 0 <= i <= |src| && j < dst.Length
      invariant rest == Strip(src[i..]) && Strip(src) == dst[..j] + rest
    {
      ghost var done, next := dst[..j], Strip(src[i+1..]);
      StripFirst(src, i);
      if src[i] != '\r' && src[i] != '\n' {
        Assoc(done, [src[i]], next);
        dst[j] := src[i];
        assert dst[..j+1] == done + [src[i]];
        j := j + 1;
      }
      rest := next;
      i := i + 1;
    }
  }

  /** `cache_directive_copy`. */
  method CacheDirectiveCopy(src: string, dst: array<char>)
    requires dst.Length > 0
    modifies dst
    ensures var r := CutTo(Strip(src), dst.Length - 1); dst[..|r|] == r && dst[|r|] == '\0'
  {
    ghost var rest;
    var j;
    j, rest := CopyInto(src, dst);
    assert dst[..j] == CutTo(Strip(src), dst.Length - 1);
    dst[j] := '\0';
  }

  class Mapping {
    const image: array<char>
    ghost const original: string

    /** The mapping differs from the file only by newlines turned into NULs,
        and a NUL follows it. */
    ghost predicate Valid()
      reads image
    {
      && image.Length == |original| + 1 && image[|original|] == '\0'
      && forall k :: 0 <= k < |original| ==>
           image[k] == original[k] || (original[k] == '\n' && image[k] == '\0')
    }

    constructor (file: string)
      ensures Valid() && original == file && fresh(image)
    {
      image := new char[|file| + 1](i => '\0');
      original := file;
      new;
      forall i | 0 <= i < |file| {
        image[i] := file[i];
      }
    }

    /** The C string at `start`. */
    ghost function CString(start: nat): string
      requires start <= image.Length
      reads image
    {
      Before(image[start..], '\0')
    }

    /** `axil_mmap_iter`: the line at `pos`, as if nothing had been rewritten. */
    method MmapIter(pos: nat) returns (end: nat)
      requires Valid() && pos < |original|
      modifies image
      ensures Valid() && pos <= end <= |original| && end - pos == |LineHead(original[pos..])|
      ensures image[end] == '\0' && forall k :: pos <= k < end ==> image[k] == original[k]
    {
      end := pos;
      ghost var l := LineHead(original[pos..]);
      while image[end] != '\n' && image[end] != '\0'
        invariant pos <= end <= pos + |l| && pos + |l| <= |original|
        decreases |original| - end
      {
        assert end < |original| && original[end] == original[pos..][end - pos];
        end := end + 1;
      }
      assert forall k :: pos <= k < pos + |l| ==> original[k] == l[k - pos];
      if image[end] == '\n' {
        image[end] := '\0';
      }
    }

    /** Splitting one line at its space, and putting the space back. */
    method TryLine(start: nat, end: nat, uri: string, fnmatch: Fnmatch, dst: array<char>) returns (hit: bool)
      requires Valid() && start <= end <= |original| && image[end] == '\0' && dst.Length > 0 && dst != image
      requires forall k :: start <= k < end ==> image[k] == original[k] && !EndsLine(image[k])
      modifies image, dst
      ensures image[..] == old(image[..])
      ensures hit <==> Applies(original[start..end], uri, fnmatch)
      ensures hit ==> var r := CutTo(Strip(Rule(original[start..end]).value.1), dst.Length - 1);
                      dst[..|r|] == r && dst[|r|] == '\0'
      ensures !hit ==> dst[..] == old(dst[..])
    {
      ghost var line := original[start..end];
      var glob := FindSpace(start, end);
      if glob == end || image[glob + 1] == '\0' {
        return false;
      }
      assert line[..glob - start] == original[start..glob] && line[glob - start + 1..] == original[glob + 1..end];
      hit := Split(start, glob, end, uri, fnmatch, dst);
    }

    /** `strchr(start, ' ')`, or the end of the line. */
    method FindSpace(start: nat, end: nat) returns (glob: nat)
      requires Valid() && start <= end <= |original| && image[end] == '\0'
      requires forall k :: start <= k < end ==> image[k] == original[k] && !EndsLine(image[k])
      ensures start <= glob <= end && glob - start == |Before(original[start..end], ' ')|
    {
      glob := start;
      ghost var line := original[start..end];
      while image[glob] != ' ' && image[glob] != '\0'
        invariant start <= glob <= end && ' ' !in line[..glob - start]
        decreases end - glob
      {
        glob := glob + 1;
      }
      BeforeUnique(line, ' ', glob - start);
    }

    /** NUL over the space, match, copy, and the space restored. */
    method Split(start: nat, glob: nat, end: nat, uri: string, fnmatch: Fnmatch, dst: array<char>) returns (hit: bool)
      requires Valid() && start <= glob < end <= |original| && image[end] == '\0' && dst.Length > 0 && dst != image
      requires forall k :: start <= k < end ==> image[k] == original[k] && !EndsLine(image[k])
      modifies image, dst
      ensures image[..] == old(image[..])
      ensures hit <==> fnmatch(original[start..glob], uri)
      ensures hit ==> var r := CutTo(Strip(original[glob + 1..end]), dst.Length - 1);
                      dst[..|r|] == r && dst[|r|] == '\0'
      ensures !hit ==> dst[..] == old(dst[..])
    {
      var save := image[glob];
      image[glob] := '\0';
      hit := MatchSplit(start, glob, end, uri, fnmatch, dst);
      image[glob] := save;
    }

    /** What happens while the line is split. */
    method MatchSplit(start: nat, glob: nat, end: nat, uri: string, fnmatch: Fnmatch, dst: array<char>) returns (hit: bool)
      requires start <= glob < end <= |original| && image.Length == |original| + 1
      requires image[glob] == '\0' && image[end] == '\0' && dst.Length > 0 && dst != image
      requires forall k :: start <= k < end && k != glob ==> image[k] == original[k] && !EndsLine(image[k])
      modifies dst
      ensures hit <==> fnmatch(original[start..glob], uri)
      ensures hit ==> var r := CutTo(Strip(original[glob + 1..end]), dst.Length - 1);
                      dst[..|r|] == r && dst[|r|] == '\0'
      ensures !hit ==> dst[..] == old(dst[..])
    {
      var pattern := image[start..glob];
      assert pattern == original[start..glob];
      BeforeUnique(image[start..], '\0', glob - start);
      assert pattern == CString(start);
      hit := fnmatch(pattern, uri);
      if hit {
        CopyRest(glob + 1, end, dst);
      }
    }

    /** The directive is the C string after the split. */
    method CopyRest(from: nat, end: nat, dst: array<char>)
      requires from <= end <= |original| && image.Length == |original| + 1 && image[end] == '\0'
      requires dst.Length > 0 && dst != image
      requires forall k :: from <= k < end ==> image[k] == original[k] && !EndsLine(image[k])
      modifies dst
      ensures var r := CutTo(Strip(original[from..end]), dst.Length - 1);
              dst[..|r|] == r && dst[|r|] == '\0'
    {
      var directive := image[from..end];
      assert directive == original[from..end];
      assert image[from..][..end - from] == directive;
      BeforeUnique(image[from..], '\0', end - from);
      assert directive == CString(from);
      CacheDirectiveCopy(directive, dst);
    }

    /** The verdict of the lines from `pos` on. */
    ghost function Verdict(pos: nat, uri: string, fnmatch: Fnmatch): Option<string> {
      Directive(Lines(if pos <= |original| then original[pos..] else ""), uri, fnmatch)
    }

    lemma VerdictStep(pos: nat, end: nat, uri: string, fnmatch: Fnmatch)
      requires pos < |original| && pos <= end <= |original| && end - pos == |LineHead(original[pos..])|
      ensures Verdict(pos, uri, fnmatch) ==
              if Applies(original[pos..end], uri, fnmatch)
              then Some(Strip(Rule(original[pos..end]).value.1)) else Verdict(end + 1, uri, fnmatch)
    {
      var s := original[pos..];
      assert LineHead(s) == original[pos..end];
      assert end < |original| ==> s[end - pos + 1..] == original[end + 1..];
    }

    lemma LineBytes(pos: nat, end: nat)
      requires pos <= end <= |original| && end - pos == |LineHead(original[pos..])|
      ensures forall k :: pos <= k < end ==> !EndsLine(original[k])
    {
    }

    /** The body of the scan: one line. */
    method ScanRule(pos: nat, uri: string, fnmatch: Fnmatch, dst: array<char>) returns (found: bool, next: nat)
      requires Valid() && dst != image && dst.Length > 0 && pos < |original|
      modifies image, dst
      ensures Valid() && pos < next <= |original| + 1
      ensures if found then
                Verdict(pos, uri, fnmatch).Some? &&
                var r := CutTo(Verdict(pos, uri, fnmatch).value, dst.Length - 1); dst[..|r|] == r && dst[|r|] == '\0'
              else Verdict(pos, uri, fnmatch) == Verdict(next, uri, fnmatch)
    {
      var end := MmapIter(pos);
      next := end + 1;
      LineBytes(pos, end);
      VerdictStep(pos, end, uri, fnmatch);
      found := TryLine(pos, end, uri, fnmatch, dst);
    }

    /** `axil_platform_cache_policy`: whatever was asked before, the answer is
        read off the original file. */
    method CachePolicy(uri: string, fnmatch: Fnmatch, dst: array<char>) returns (found: bool)
      requires Valid() && dst != image
      modifies image, dst
      ensures Valid()
      ensures dst.Length == 0 || original == "" ==> !found
      ensures dst.Length > 0 ==> (found <==> Directive(Lines(original), uri, fnmatch).Some?)
      ensures found ==> var r := CutTo(Directive(Lines(original), uri, fnmatch).value, dst.Length - 1);
                        dst[..|r|] == r && dst[|r|] == '\0'
    {
      if image.Length == 1 || dst.Length == 0 {
        return false;
      }
      var pos := 0;
      assert original[0..] == original;
      while pos < image.Length - 1
        invariant Valid() && pos <= |original| + 1
        invariant Verdict(pos, uri, fnmatch) == Directive(Lines(original), uri, fnmatch)
        decreases image.Length - pos
      {
        found, pos := ScanRule(pos, uri, fnmatch, dst);
        if found {
          return;
        }
      }
      found := false;
    }

  }

  // ---- What lines and stripped texts are ----

  /** Lines are what newlines separate; one at the end starts no line. */
  lemma LinesExact(l: string, rest: string)
    requires forall k :: 0 <= k < |l| ==> !EndsLine(l[k])
    ensures Lines(l + ("\n" + rest)) == [l] + Lines(rest)
    ensures l != "" ==> Lines(l) == [l]
    ensures Lines("") == []
  {
    HeadIs(l, "\n" + rest);
    HeadIs(l, "");
    assert l + "" == l;
    var s := l + ("\n" + rest);
    assert s[|l| + 1..] == rest;
  }

  lemma {:induction false} HeadIs(l: string, rest: string)
    requires (forall k :: 0 <= k < |l| ==> !EndsLine(l[k])) && (rest == "" || EndsLine(rest[0]))
    ensures LineHead(l + rest) == l
  {
    if l == "" {
      assert l + rest == rest;
    } else {
      assert (l + rest)[0] == l[0] && (l + rest)[1..] == l[1..] + rest;
      HeadIs(l[1..], rest);
    }
  }

  /** Stripping removes every CR and LF, and nothing else. */
  lemma {:induction false} StripExact(a: string, c: char, b: string)
    ensures Strip(a + ([c] + b)) == Strip(a) + ((if c == '\r' || c == '\n' then "" else [c]) + Strip(b))
    ensures Strip("") == ""
    decreases |a|
  {
    var e := if c == '\r' || c == '\n' then "" else [c];
    if a == "" {
      assert a + ([c] + b) == [c] + b && ([c] + b)[1..] == b;
      assert Strip([c] + b) == e + Strip(b);
    } else {
      var s := a + ([c] + b);
      assert s[0] == a[0] && s[1..] == a[1..] + ([c] + b);
      StripExact(a[1..], c, b);
      if a[0] != '\r' && a[0] != '\n' {
        Assoc([a[0]], Strip(a[1..]), e + Strip(b));
      }
    }
  }
}

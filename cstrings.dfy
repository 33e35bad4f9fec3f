/**
 * The C-string primitives the web-page checks rely on: `strchr`, `strlen`,
 * `strlcpy` and `zbx_rtrim`. Each has a specification function on sequences;
 * the ones the checks run over a character buffer also have a method that works
 * on an `array<char>` and is proved against its specification function.
 */
module CStrings {
  import opened Wrappers

  /** A C string: the characters before its terminating NUL, so it holds no NUL. */
  type CString = s: string | '\0' !in s

  /** The index of the first `c` in `s`, if any. */
  function Find(s: string, c: char): (r: Option<nat>)
    ensures r.Some? ==> r.value < |s| && s[r.value] == c && c !in s[..r.value]
    ensures r.None? ==> c !in s
  {
    if |s| == 0 then None
    else if s[0] == c then Some(0)
    else match Find(s[1..], c)
      case None => None
      case Some(i) => Some(i + 1)
  }

  /** The first `c` in `s` is the one at `k` when no `c` comes before it. */
  lemma FindFirst(s: string, c: char, k: nat)
    requires k < |s| && s[k] == c && c !in s[..k]
    ensures Find(s, c) == Some(k)
  {
    assert s[..k + 1][k] == c;
    var r := Find(s, c);
    assert forall j :: 0 <= j < k ==> s[..k][j] == s[j];
    assert r.Some? ==> forall j :: 0 <= j < r.value ==> s[..r.value][j] == s[j];
  }

  /** The string `strlen` and `%s` see in the characters `s`: everything before the first NUL. */
  function CStr(s: string): (r: CString)
    ensures r <= s
    ensures |r| < |s| ==> s[|r|] == '\0'
  {
    match Find(s, '\0')
    case None => s
    case Some(i) => s[..i]
  }

  /** A NUL after a C string ends it, whatever follows. */
  lemma CStrOfTerminated(s: CString, t: string)
    ensures CStr(s + ['\0'] + t) == s
  {
    var u := s + ['\0'] + t;
    var r := CStr(u);
    assert forall i :: 0 <= i < |s| ==> u[i] == s[i];
    assert u[|s|] == '\0';
    assert u[..|s|] == s;
  }

  /** A C string read as characters is itself. */
  lemma CStrOfCString(s: CString)
    ensures CStr(s) == s
  {
  }

  /**
   * What `strlcpy(dst, src, size)` leaves as the C string in `dst` when `size > 0`:
   * the first `size - 1` characters of the C string in `src`, or all of it when shorter.
   */
  function Copied(src: string, size: nat): (t: CString)
    requires size > 0
    ensures t <= CStr(src)
    ensures |t| <= size - 1
    ensures |t| < size - 1 ==> t == CStr(src)
  {
    var c := CStr(src);
    if |c| <= size - 1 then c else c[..size - 1]
  }

  /**
   * The whole content of a destination buffer `dst` after `strlcpy(dst, src, size)`:
   * nothing is written when `size` is 0; otherwise the copied prefix, its NUL, and
   * the rest of `dst` as it was.
   */
  function LCopy(dst: seq<char>, src: string, size: nat): (r: seq<char>)
    requires size <= |dst|
    ensures |r| == |dst|
    ensures size == 0 ==> r == dst
    ensures size > 0 ==> CStr(r) == Copied(src, size)
    ensures size > 0 ==> r[|Copied(src, size)| + 1..] == dst[|Copied(src, size)| + 1..]
  {
    if size == 0 then dst
    else
      var t := Copied(src, size);
      CStrOfTerminated(t, dst[|t| + 1..]);
      t + ['\0'] + dst[|t| + 1..]
  }

  /** One more character copied over the old content of the buffer. */
  lemma CopyStep(src: string, before: seq<char>, i: nat)
    requires i < |src| && i < |before| && src[i] != '\0' && '\0' !in src[..i]
    ensures (src[..i] + before[i..])[i := src[i]] == src[..i + 1] + before[i + 1..]
    ensures '\0' !in src[..i + 1]
  {
    assert src[..i + 1] == src[..i] + [src[i]];
  }

  /** The NUL that ends the copy, written over the old content of the buffer. */
  lemma TerminateStep(copy: string, before: seq<char>)
    requires |copy| < |before|
    ensures (copy + before[|copy|..])[|copy| := '\0'] == copy + ['\0'] + before[|copy| + 1..]
  {
  }

  /** Where the copy loop of strlcpy stops, it has copied exactly what `Copied` says. */
  lemma CopiedPrefix(src: string, size: nat, i: nat)
    requires 0 < size && i <= size - 1 && i <= |src| && '\0' !in src[..i]
    requires i == size - 1 || i == |src| || src[i] == '\0'
    ensures Copied(src, size) == src[..i]
  {
    var c := CStr(src);
    if i < |src| && src[i] == '\0' {
      FindFirst(src, '\0', i);
      assert c == src[..i];
    } else if i == |src| {
      assert src[..i] == src;
      CStrOfCString(src);
    } else {
      assert c[..i] == src[..i];
    }
  }

  /** `strlcpy` into an array: copies at most `size - 1` characters and terminates the copy. */
  method StrLCpy(dst: array<char>, src: string, size: nat)
    requires size <= dst.Length
    modifies dst
    ensures dst[..] == LCopy(old(dst[..]), src, size)
  {
    if size == 0 {
      return;
    }
    var i := 0;
    ghost var before := dst[..];
    while i < size - 1 && i < |src| && src[i] != '\0'
      invariant i <= size - 1 && i <= |src|
      invariant '\0' !in src[..i]
      invariant dst[..] == src[..i] + before[i..]
    {
      ghost var cur := dst[..];
      dst[i] := src[i];
      assert dst[..] == cur[i := src[i]];
      CopyStep(src, before, i);
      i := i + 1;
    }
    CopiedPrefix(src, size, i);
    ghost var cur := dst[..];
    dst[i] := '\0';
    assert dst[..] == cur[i := '\0'];
    TerminateStep(src[..i], before);
  }

  /** A character that is not the NUL ahead moves the search past it. */
  lemma NulAhead(s: string, n: nat)
    requires n < |s| && '\0' in s[n..] && '\0' !in s[..n] && s[n] != '\0'
    ensures n + 1 < |s| && '\0' in s[n + 1..] && '\0' !in s[..n + 1]
  {
    assert s[n..] == [s[n]] + s[n + 1..];
    assert s[..n + 1] == s[..n] + [s[n]];
  }

  /** `strlen(buf + from)`: the length of the C string that starts at `from`. */
  method StrLen(buf: array<char>, from: nat) returns (n: nat)
    requires from <= buf.Length && '\0' in buf[from..]
    ensures from + n < buf.Length && buf[from..from + n] == CStr(buf[from..])
  {
    ghost var s := buf[from..];
    n := 0;
    while buf[from + n] != '\0'
      invariant n < |s| && '\0' in s[n..] && '\0' !in s[..n]
      invariant s == buf[from..]
      decreases |s| - n
    {
      NulAhead(s, n);
      n := n + 1;
    }
    FindFirst(s, '\0', n);
    assert buf[from..from + n] == s[..n];
  }

  /** `strchr(buf + from, c)`: where the first `c` of the C string at `from` is, if it has one. */
  method StrChr(buf: array<char>, from: nat, c: char) returns (r: Option<nat>)
    requires c != '\0'
    requires from <= buf.Length && '\0' in buf[from..]
    ensures r.Some? ==> from <= r.value && Find(CStr(buf[from..]), c) == Some(r.value - from)
    ensures r.None? ==> Find(CStr(buf[from..]), c) == None
  {
    var n := StrLen(buf, from);
    var i := from;
    while i < from + n && buf[i] != c
      invariant from <= i <= from + n
      invariant c !in buf[from..i]
    {
      i := i + 1;
    }
    ghost var s := CStr(buf[from..]);
    assert s == buf[from..from + n];
    if i < from + n {
      assert s[..i - from] == buf[from..i];
      r := Some(i);
    } else {
      assert s == buf[from..i];
      r := None;
    }
  }

  /**
   * `zbx_rtrim(s, chars)`: `s` without its longest suffix made only of characters
   * in `chars`.
   */
  function RTrim(s: string, chars: string): (r: string)
    ensures r <= s
    ensures |r| > 0 ==> r[|r| - 1] !in chars
    ensures forall i :: |r| <= i < |s| ==> s[i] in chars
  {
    if |s| > 0 && s[|s| - 1] in chars then RTrim(s[..|s| - 1], chars) else s
  }

  /** Trimming twice trims no more than trimming once. */
  lemma RTrimIdempotent(s: string, chars: string)
    ensures RTrim(RTrim(s, chars), chars) == RTrim(s, chars)
  {
  }

  /** The result of `RTrim` is the only prefix with its two properties: it is the longest one. */
  lemma {:induction false} RTrimUnique(s: string, chars: string, p: string)
    requires p <= s
    requires |p| > 0 ==> p[|p| - 1] !in chars
    requires forall i :: |p| <= i < |s| ==> s[i] in chars
    ensures p == RTrim(s, chars)
  {
    if |s| > 0 && s[|s| - 1] in chars {
      RTrimUnique(s[..|s| - 1], chars, p);
    } else {
      assert p == s;
    }
  }
}

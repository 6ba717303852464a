/**
 Handles and slugs: the one canonical spelling of a name, and how a raw input is brought to it.

 The program works on UTF-8 bytes after ASCII lowering. A string that passes its checks is pure ASCII,
 so its byte length and its character length are the same number; the model counts characters.
 */
module Names {
  import opened Wrappers

  const MAX_HANDLE: nat := 31
  const MAX_SLUG: nat := 63

  /** Words that may not be used as a slug below `/@{handle}/`. */
  const RESERVED_SLUGS: set<string> :=
    {"identity", "apps", "node", "world", "api", "oauth", "errors", "static", "health"}

  /** The Unicode White_Space property, which `str::trim` removes at both ends. */
  predicate IsWhitespace(c: char) {
    var n := c as int;
    || 0x9 <= n <= 0xD || n == 0x20 || n == 0x85 || n == 0xA0 || n == 0x1680
    || 0x2000 <= n <= 0x200A || n == 0x2028 || n == 0x2029 || n == 0x202F || n == 0x205F || n == 0x3000
  }

  predicate IsAlnum(c: char) {
    'a' <= c <= 'z' || '0' <= c <= '9'
  }

  function LowerChar(c: char): char {
    if 'A' <= c <= 'Z' then (c as int + 32) as char else c
  }

  function Lower(s: string): (r: string)
    ensures |r| == |s|
    ensures forall i :: 0 <= i < |s| ==> r[i] == LowerChar(s[i])
  {
    if s == "" then "" else [LowerChar(s[0])] + Lower(s[1..])
  }

  function TrimStart(s: string): string {
    if s != "" && IsWhitespace(s[0]) then TrimStart(s[1..]) else s
  }

  function TrimEnd(s: string): string {
    if s != "" && IsWhitespace(s[|s| - 1]) then TrimEnd(s[..|s| - 1]) else s
  }

  function Trim(s: string): string {
    TrimEnd(TrimStart(s))
  }

  /** `^[a-z0-9][a-z0-9-]*$`, at most `max` long. */
  predicate WellFormed(s: string, max: nat) {
    && 0 < |s| <= max
    && IsAlnum(s[0])
    && forall i :: 1 <= i < |s| ==> IsAlnum(s[i]) || s[i] == '-'
  }

  predicate IsHandle(h: string) {
    WellFormed(h, MAX_HANDLE)
  }

  predicate IsSlug(s: string) {
    WellFormed(s, MAX_SLUG) && s !in RESERVED_SLUGS
  }

  function CanonicalHandle(input: string): Option<string> {
    var h := Lower(Trim(input));
    if WellFormed(h, MAX_HANDLE) then Some(h) else None
  }

  function CanonicalSlug(input: string): Option<string> {
    var s := Lower(Trim(input));
    if WellFormed(s, MAX_SLUG) && s !in RESERVED_SLUGS then Some(s) else None
  }

  /** A letter, digit or hyphen of a name. */
  predicate NameChar(c: char) {
    'a' <= c <= 'z' || '0' <= c <= '9' || c == '-'
  }

  /** The shape of a handle: 1 to 31 lower-case letters, digits and hyphens, not starting with a hyphen. */
  lemma HandleShape(h: string)
    ensures IsHandle(h) <==>
            1 <= |h| <= 31 && h[0] != '-' && forall i :: 0 <= i < |h| ==> NameChar(h[i])
  {
    assert IsHandle(h) ==> forall i :: 0 <= i < |h| ==> i == 0 || IsAlnum(h[i]) || h[i] == '-';
  }

  /** The shape of a slug: the same up to 63, and none of the nine words that belong to the tree below a handle. */
  lemma SlugShape(s: string)
    ensures IsSlug(s) <==>
            && 1 <= |s| <= 63 && s[0] != '-' && (forall i :: 0 <= i < |s| ==> NameChar(s[i]))
            && s !in {"identity", "apps", "node", "world", "api", "oauth", "errors", "static", "health"}
  {
    assert IsSlug(s) ==> forall i :: 0 <= i < |s| ==> i == 0 || IsAlnum(s[i]) || s[i] == '-';
  }

  predicate AllWhite(s: string) {
    forall i :: 0 <= i < |s| ==> IsWhitespace(s[i])
  }

  /** What trimming finds: white space on both sides of a core that neither starts nor ends with it. */
  ghost predicate Splits(s: string, left: string, core: string, right: string) {
    && s == left + core + right
    && AllWhite(left) && AllWhite(right)
    && (core != "" ==> !IsWhitespace(core[0]) && !IsWhitespace(core[|core| - 1]))
  }

  lemma {:induction false} TrimStartStrips(left: string, rest: string)
    requires AllWhite(left)
    requires rest != "" ==> !IsWhitespace(rest[0])
    ensures TrimStart(left + rest) == rest
  {
    if left == "" {
      assert left + rest == rest;
    } else {
      assert (left + rest)[1..] == left[1..] + rest;
      TrimStartStrips(left[1..], rest);
    }
  }

  lemma {:induction false} TrimEndStrips(rest: string, right: string)
    requires AllWhite(right)
    requires rest != "" ==> !IsWhitespace(rest[|rest| - 1])
    ensures TrimEnd(rest + right) == rest
  {
    if right == "" {
      assert rest + right == rest;
    } else {
      assert (rest + right)[..|rest + right| - 1] == rest + right[..|right| - 1];
      TrimEndStrips(rest, right[..|right| - 1]);
    }
  }

  lemma {:induction false} TrimStartSplit(s: string) returns (left: string)
    ensures s == left + TrimStart(s) && AllWhite(left)
    ensures TrimStart(s) != "" ==> !IsWhitespace(TrimStart(s)[0])
  {
    left := "";
    if s != "" && IsWhitespace(s[0]) {
      var l := TrimStartSplit(s[1..]);
      left := [s[0]] + l;
      assert s == [s[0]] + s[1..];
    }
  }

  lemma {:induction false} TrimEndSplit(s: string) returns (right: string)
    ensures s == TrimEnd(s) + right && AllWhite(right)
    ensures TrimEnd(s) != "" ==> !IsWhitespace(TrimEnd(s)[|TrimEnd(s)| - 1]) && TrimEnd(s)[0] == s[0]
  {
    right := "";
    if s != "" && IsWhitespace(s[|s| - 1]) {
      var r := TrimEndSplit(s[..|s| - 1]);
      right := r + [s[|s| - 1]];
      assert s == s[..|s| - 1] + [s[|s| - 1]];
    }
  }

  lemma TrimSplits(s: string) returns (left: string, right: string)
    ensures Splits(s, left, Trim(s), right)
  {
    left := TrimStartSplit(s);
    right := TrimEndSplit(TrimStart(s));
    assert s == left + Trim(s) + right;
  }

  lemma TrimOf(s: string, left: string, core: string, right: string)
    requires Splits(s, left, core, right)
    requires core != ""
    ensures Trim(s) == core
  {
    assert s == left + (core + right);
    TrimStartStrips(left, core + right);
    TrimEndStrips(core, right);
  }

  lemma LowerOfWellFormed(x: string, h: string, max: nat)
    requires Lower(x) == h && WellFormed(h, max)
    ensures !IsWhitespace(x[0]) && !IsWhitespace(x[|x| - 1])
  {
    assert h[0] == LowerChar(x[0]) && h[|h| - 1] == LowerChar(x[|x| - 1]);
  }

  lemma LowerFixed(h: string, max: nat)
    requires WellFormed(h, max)
    ensures Lower(h) == h
  {
    forall i | 0 <= i < |h| ensures Lower(h)[i] == h[i] {
      assert IsAlnum(h[i]) || h[i] == '-';
    }
  }

  /**
   Exactly which inputs name the handle `h`: a well-formed `h`, in any mix of upper and lower case, with any
   white space around it. No other input names it, and an ill-formed `h` is named by nothing.
   */
  lemma HandleInputsExact(input: string, h: string)
    ensures CanonicalHandle(input) == Some(h) <==>
            IsHandle(h) && exists left, core, right :: Splits(input, left, core, right) && Lower(core) == h
  {
    if CanonicalHandle(input) == Some(h) {
      var left, right := TrimSplits(input);
      assert Splits(input, left, Trim(input), right);
    }
    if IsHandle(h) {
      forall left, core, right | Splits(input, left, core, right) && Lower(core) == h
        ensures CanonicalHandle(input) == Some(h)
      {
        TrimOf(input, left, core, right);
      }
    }
  }

  /** The same for slugs: the reserved words are named by no input, whatever its case or padding. */
  lemma SlugInputsExact(input: string, s: string)
    ensures CanonicalSlug(input) == Some(s) <==>
            IsSlug(s) && exists left, core, right :: Splits(input, left, core, right) && Lower(core) == s
  {
    if CanonicalSlug(input) == Some(s) {
      var left, right := TrimSplits(input);
      assert Splits(input, left, Trim(input), right);
    }
    if IsSlug(s) {
      forall left, core, right | Splits(input, left, core, right) && Lower(core) == s
        ensures CanonicalSlug(input) == Some(s)
      {
        TrimOf(input, left, core, right);
      }
    }
  }

  /** The same letter, in upper or lower case. */
  predicate SameLetter(c: char, lower: char) {
    c == lower || ('a' <= lower <= 'z' && 'A' <= c <= 'Z' && c as int - 'A' as int == lower as int - 'a' as int)
  }

  lemma LowersTo(x: string, h: string)
    requires IsHandle(h) && |x| == |h| && forall i :: 0 <= i < |h| ==> SameLetter(x[i], h[i])
    ensures Lower(x) == h
  {
    forall i | 0 <= i < |h| ensures LowerChar(x[i]) == h[i] {
      assert i == 0 || IsAlnum(h[i]) || h[i] == '-';
    }
  }

  /** However its letters are cased, a handle is named by its spelling. */
  lemma CaseDoesNotMatter(x: string, h: string)
    requires IsHandle(h) && |x| == |h| && forall i :: 0 <= i < |h| ==> SameLetter(x[i], h[i])
    ensures CanonicalHandle(x) == Some(h)
  {
    LowersTo(x, h);
    LowerOfWellFormed(x, h, MAX_HANDLE);
    assert Splits(x, "", x, "") by {
      assert x == "" + x + "";
    }
    HandleInputsExact(x, h);
  }

  lemma WellFormedIsCanonical(h: string, max: nat)
    requires WellFormed(h, max)
    ensures Lower(Trim(h)) == h
  {
    LowerFixed(h, max);
    LowerOfWellFormed(h, h, max);
    assert h == "" + h + "";
    TrimOf(h, "", h, "");
  }

  /** The canonical forms are the fixed points, so canonicalising reaches one in a single step. */
  lemma HandleFixedPoint(h: string)
    ensures CanonicalHandle(h) == Some(h) <==> IsHandle(h)
    ensures CanonicalHandle(h).Some? ==> CanonicalHandle(CanonicalHandle(h).value) == CanonicalHandle(h)
  {
    if IsHandle(h) {
      WellFormedIsCanonical(h, MAX_HANDLE);
    }
    if CanonicalHandle(h).Some? {
      WellFormedIsCanonical(CanonicalHandle(h).value, MAX_HANDLE);
    }
  }

  lemma SlugFixedPoint(s: string)
    ensures CanonicalSlug(s) == Some(s) <==> IsSlug(s)
    ensures CanonicalSlug(s).Some? ==> CanonicalSlug(CanonicalSlug(s).value) == CanonicalSlug(s)
  {
    if IsSlug(s) {
      WellFormedIsCanonical(s, MAX_SLUG);
    }
    if CanonicalSlug(s).Some? {
      WellFormedIsCanonical(CanonicalSlug(s).value, MAX_SLUG);
    }
  }
}

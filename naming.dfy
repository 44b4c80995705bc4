/**
 * The identity codec of a migration: how `formatName` builds a canonical name
 * from a title and a number, and how `Migration.parseName` and the one-argument
 * constructor pull the name, the number and the title slug back out of a path
 * with the unanchored regular expressions `/(\d+-[^.]+)(?:\.*?)?/` and
 * `/(\d+)-([^\.]+)/`.
 */
module Naming {

  datatype Option<T> = None | Some(value: T)

  /**
   * The collaborators the codec calls but whose internals are not modelled:
   * `inflection.dasherize`, `inflection.humanize(_, true)` and `path.join`.
   */
  datatype Library = Library(
    dasherize: string -> string,
    humanize: string -> string,
    join: (string, string) -> string)

  /** What the one-argument constructor extracts from a path. */
  datatype Identity = Identity(name: string, num: string, title: string)

  // ---------------------------------------------------------------------
  // Character classes of the two regular expressions
  // ---------------------------------------------------------------------

  /** `\d` in a JavaScript regular expression: an ASCII decimal digit. */
  predicate IsDigit(c: char) {
    '0' <= c <= '9'
  }

  predicate AllDigits(s: string) {
    forall i :: 0 <= i < |s| ==> IsDigit(s[i])
  }

  /** Every character is matched by `[^.]` (which also matches newlines). */
  predicate NoDot(s: string) {
    forall i :: 0 <= i < |s| ==> s[i] != '.'
  }

  /** A sequence number as the decoder reads it: one or more digits. */
  predicate IsNumber(s: string) {
    |s| > 0 && AllDigits(s)
  }

  /** A title slug as the decoder reads it: one or more non-dot characters. */
  predicate IsSlug(s: string) {
    |s| > 0 && NoDot(s)
  }

  // ---------------------------------------------------------------------
  // The matcher
  // ---------------------------------------------------------------------

  /** Length of the longest run of digits starting at `i` (what greedy `\d+` takes). */
  function DigitRun(s: string, i: nat): (n: nat)
    requires i <= |s|
    ensures i + n <= |s|
    ensures forall j :: i <= j < i + n ==> IsDigit(s[j])
    ensures i + n == |s| || !IsDigit(s[i + n])
    decreases |s| - i
  {
    if i < |s| && IsDigit(s[i]) then 1 + DigitRun(s, i + 1) else 0
  }

  /** Length of the longest run of non-dot characters starting at `i` (greedy `[^.]+`). */
  function NonDotRun(s: string, i: nat): (n: nat)
    requires i <= |s|
    ensures i + n <= |s|
    ensures forall j :: i <= j < i + n ==> s[j] != '.'
    ensures i + n == |s| || s[i + n] == '.'
    decreases |s| - i
  {
    if i < |s| && s[i] != '.' then 1 + NonDotRun(s, i + 1) else 0
  }

  /**
   * `\d+-[^.]+` matches at position `i`. Since a digit is never `-`, the digit
   * run must be the maximal one, and it must be followed by `-` and at least
   * one non-dot character.
   */
  predicate MatchesAt(s: string, i: nat)
    requires i <= |s|
  {
    var d := DigitRun(s, i);
    d > 0 && i + d < |s| && s[i + d] == '-' && NonDotRun(s, i + d + 1) > 0
  }

  /** Where the greedy match that starts at `i` ends. */
  function MatchEnd(s: string, i: nat): (e: nat)
    requires i <= |s| && MatchesAt(s, i)
    ensures i < e <= |s|
  {
    var d := DigitRun(s, i);
    i + d + 1 + NonDotRun(s, i + d + 1)
  }

  /** The leftmost position at or after `from` where the pattern matches. */
  function LeftmostMatch(s: string, from: nat): (r: Option<nat>)
    requires from <= |s|
    ensures r.Some? ==> from <= r.value < |s| && MatchesAt(s, r.value)
    ensures forall j :: from <= j <= |s| && (r.None? || j < r.value) ==> !MatchesAt(s, j)
    decreases |s| - from
  {
    if from == |s| then None
    else if MatchesAt(s, from) then Some(from)
    else LeftmostMatch(s, from + 1)
  }

  // ---------------------------------------------------------------------
  // Encode
  // ---------------------------------------------------------------------

  /** `formatTitle`: the dasherised title. */
  function FormatTitle(title: string, dasherize: string -> string): string {
    dasherize(title)
  }

  /** `formatName`: the number exactly as given, a hyphen, the dasherised title. */
  function FormatName(title: string, num: string, dasherize: string -> string): string {
    num + "-" + FormatTitle(title, dasherize)
  }

  /** `formatPath`: the directory joined with the name. */
  function FormatPath(dir: string, name: string, join: (string, string) -> string): string {
    join(dir, name)
  }

  // ---------------------------------------------------------------------
  // Decode
  // ---------------------------------------------------------------------

  /**
   * `Migration.parseName`: group 1 of the leftmost match of
   * `(\d+-[^.]+)(?:\.*?)?`; the trailing group never changes group 1.
   * `None` stands for the null match, whose indexing throws.
   */
  function ParseName(path: string): Option<string> {
    match LeftmostMatch(path, 0)
    case None => None
    case Some(i) => Some(path[i..MatchEnd(path, i)])
  }

  /**
   * The match of `(\d+)-([^\.]+)` on a name: groups 1 (the number) and 2
   * (the title slug) of the leftmost match.
   */
  function SplitName(name: string): Option<(string, string)> {
    match LeftmostMatch(name, 0)
    case None => None
    case Some(i) =>
      var d := DigitRun(name, i);
      Some((name[i..i + d], name[i + d + 1..MatchEnd(name, i)]))
  }

  /** The fields the one-argument constructor gives a migration decoded from `path`. */
  function Decode(path: string, humanize: string -> string): Option<Identity> {
    match ParseName(path)
    case None => None
    case Some(name) =>
      ParsedNameSplits(path);
      var parts := SplitName(name).value;
      Some(Identity(name, parts.0, humanize(parts.1)))
  }

  // ---------------------------------------------------------------------
  // Reference semantics of the regular expression
  // ---------------------------------------------------------------------

  /** `w` is `m` digits, a `-`, and at least one non-dot character. */
  ghost predicate SplitsAt(w: string, m: int) {
    0 < m < |w| - 1 && AllDigits(w[..m]) && w[m] == '-' && NoDot(w[m + 1..])
  }

  /** `w` is in the language of `\d+-[^.]+`. */
  ghost predicate InPattern(w: string) {
    exists m :: SplitsAt(w, m)
  }

  /**
   * `p[i..k]` is what a backtracking regex engine reports for `\d+-[^.]+`:
   * no match starts earlier, and no longer match starts at `i`.
   */
  ghost predicate LeftmostLongest(p: string, i: nat, k: nat) {
    i <= k <= |p| && InPattern(p[i..k])
    && (forall j, e :: 0 <= j < i && j <= e <= |p| ==> !InPattern(p[j..e]))
    && (forall e :: k < e <= |p| ==> !InPattern(p[i..e]))
  }

  /** A directory part in which `\d+-` occurs, so that a match could start inside it. */
  ghost predicate HasNumberedRun(s: string) {
    exists i, j :: 0 <= i < j < |s| && AllDigits(s[i..j]) && s[j] == '-'
  }

  // ---------------------------------------------------------------------
  // Lemmas about the matcher
  // ---------------------------------------------------------------------

  /** The maximal digit run is determined by where it stops. */
  lemma DigitRunIs(s: string, i: nat, n: nat)
    requires i + n <= |s|
    requires forall j :: i <= j < i + n ==> IsDigit(s[j])
    requires i + n == |s| || !IsDigit(s[i + n])
    ensures DigitRun(s, i) == n
  {
  }

  /** The maximal non-dot run is determined by where it stops. */
  lemma NonDotRunIs(s: string, i: nat, n: nat)
    requires i + n <= |s|
    requires forall j :: i <= j < i + n ==> s[j] != '.'
    requires i + n == |s| || s[i + n] == '.'
    ensures NonDotRun(s, i) == n
  {
  }

  /** The leftmost match is the one position that matches with nothing matching before it. */
  lemma LeftmostIs(s: string, i: nat)
    requires i <= |s| && MatchesAt(s, i)
    requires forall j :: 0 <= j < i ==> !MatchesAt(s, j)
    ensures LeftmostMatch(s, 0) == Some(i)
  {
  }

  /** Every slice in the pattern starts at a match and ends within its greedy extent. */
  lemma PatternAtComplete(s: string, i: nat, k: nat)
    requires i <= k <= |s| && InPattern(s[i..k])
    ensures MatchesAt(s, i) && i + DigitRun(s, i) + 2 <= k <= MatchEnd(s, i)
  {
    var w := s[i..k];
    var m :| SplitsAt(w, m);
    forall j | i <= j < i + m ensures IsDigit(s[j]) {
      assert s[j] == w[..m][j - i];
    }
    assert s[i + m] == w[m];
    DigitRunIs(s, i, m);
  }

  /** Every slice from a match to a point within its greedy extent is in the pattern. */
  lemma PatternAtSound(s: string, i: nat, k: nat)
    requires i <= k <= |s| && MatchesAt(s, i)
    requires i + DigitRun(s, i) + 2 <= k <= MatchEnd(s, i)
    ensures InPattern(s[i..k])
  {
    var w := s[i..k];
    var m := DigitRun(s, i);
    var num, slug := w[..m], w[m + 1..];
    forall j | 0 <= j < |num| ensures IsDigit(num[j]) {
      assert num[j] == s[i + j];
    }
    forall j | 0 <= j < |slug| ensures slug[j] != '.' {
      assert slug[j] == s[i + m + 1 + j];
    }
    assert w[m] == s[i + m];
    assert SplitsAt(w, m);
  }

  /** A slice is in the pattern exactly when it starts at a match and ends within its greedy extent. */
  lemma PatternAt(s: string, i: nat, k: nat)
    requires i <= k <= |s|
    ensures InPattern(s[i..k]) <==>
              MatchesAt(s, i) && i + DigitRun(s, i) + 2 <= k <= MatchEnd(s, i)
  {
    if InPattern(s[i..k]) {
      PatternAtComplete(s, i, k);
    }
    if MatchesAt(s, i) && i + DigitRun(s, i) + 2 <= k <= MatchEnd(s, i) {
      PatternAtSound(s, i, k);
    }
  }

  /**
   * `parseName` reports the leftmost-longest occurrence of `\d+-[^.]+` in the
   * path, and fails exactly when the pattern occurs nowhere in it.
   */
  lemma ParseNameSpec(p: string)
    ensures ParseName(p).None? <==> forall i, k :: 0 <= i <= k <= |p| ==> !InPattern(p[i..k])
    ensures ParseName(p).Some? ==>
              exists i: nat, k: nat :: LeftmostLongest(p, i, k) && ParseName(p).value == p[i..k]
  {
    match LeftmostMatch(p, 0)
    case None =>
      forall i, k | 0 <= i <= k <= |p| ensures !InPattern(p[i..k]) {
        PatternAt(p, i, k);
      }
    case Some(i) =>
      var k := MatchEnd(p, i);
      PatternAt(p, i, k);
      forall j, e | 0 <= j < i && j <= e <= |p| ensures !InPattern(p[j..e]) {
        PatternAt(p, j, e);
      }
      forall e | k < e <= |p| ensures !InPattern(p[i..e]) {
        PatternAt(p, i, e);
      }
      assert LeftmostLongest(p, i, k);
  }

  /** A parsed name is a substring of the path made of digits, `-`, and a dot-free slug. */
  lemma ParsedNameShape(p: string)
    requires ParseName(p).Some?
    ensures exists i, k :: 0 <= i <= k <= |p| && p[i..k] == ParseName(p).value
    ensures exists num, slug :: IsNumber(num) && IsSlug(slug) && ParseName(p).value == num + "-" + slug
  {
    var i := LeftmostMatch(p, 0).value;
    var d := DigitRun(p, i);
    var k := MatchEnd(p, i);
    var num, slug := p[i..i + d], p[i + d + 1..k];
    assert p[i..k] == num + "-" + slug;
    forall j | 0 <= j < |num| ensures IsDigit(num[j]) {
      assert num[j] == p[i + j];
    }
    forall j | 0 <= j < |slug| ensures slug[j] != '.' {
      assert slug[j] == p[i + d + 1 + j];
    }
    assert IsNumber(num) && IsSlug(slug);
  }

  /** Where the number, the `-` and the slug sit in a name `D-S`. */
  lemma NameLayout(w: string, num: string, slug: string)
    requires w == num + "-" + slug
    ensures |w| == |num| + 1 + |slug|
    ensures forall j :: 0 <= j < |num| ==> w[j] == num[j]
    ensures w[|num|] == '-'
    ensures forall j :: 0 <= j < |slug| ==> w[|num| + 1 + j] == slug[j]
  {
  }

  /** The match on `D-S<ext>` starts at 0 and takes exactly `D-S`. */
  lemma MatchOfName(w: string, num: string, slug: string, ext: string)
    requires IsNumber(num) && IsSlug(slug) && w == num + "-" + slug
    requires ext == [] || ext[0] == '.'
    ensures MatchesAt(w + ext, 0)
    ensures DigitRun(w + ext, 0) == |num|
    ensures MatchEnd(w + ext, 0) == |w|
  {
    NameLayout(w, num, slug);
    var r := w + ext;
    forall j | 0 <= j < |w| ensures r[j] == w[j] {
    }
    if ext != [] {
      assert r[|w|] == ext[0];
    }
    forall j | 0 <= j < |num| ensures IsDigit(r[j]) {
      assert r[j] == num[j];
    }
    DigitRunIs(r, 0, |num|);
    forall j | |num| + 1 <= j < |w| ensures r[j] != '.' {
      assert r[j] == slug[j - |num| - 1];
    }
    NonDotRunIs(r, |num| + 1, |slug|);
  }

  /** Putting text in front of a match moves the match and leaves its extent alone. */
  lemma ShiftMatch(pre: string, rest: string)
    requires MatchesAt(rest, 0)
    ensures MatchesAt(pre + rest, |pre|)
    ensures MatchEnd(pre + rest, |pre|) == |pre| + MatchEnd(rest, 0)
  {
    var p := pre + rest;
    var d := DigitRun(rest, 0);
    var n := NonDotRun(rest, d + 1);
    forall j | 0 <= j < |rest| ensures p[|pre| + j] == rest[j] {
    }
    DigitRunIs(p, |pre|, d);
    NonDotRunIs(p, |pre| + d + 1, n);
  }

  /** A match that starts before a non-digit, non-`-` separator exhibits `\d+-` before it. */
  lemma MatchBeforeSeparator(p: string, n: nat, j: nat)
    requires n < |p| && !IsDigit(p[n]) && p[n] != '-'
    requires j <= n && MatchesAt(p, j)
    ensures HasNumberedRun(p[..n])
  {
    var d := DigitRun(p, j);
    assert j + d < n;
    assert p[..n][j..j + d] == p[j..j + d];
    assert p[..n][j + d] == '-';
  }

  /** No match starts in a clean directory part or at the separator after it. */
  lemma NoMatchInCleanPrefix(p: string, n: nat)
    requires n < |p| && !IsDigit(p[n]) && p[n] != '-'
    requires !HasNumberedRun(p[..n])
    ensures forall j :: 0 <= j <= n ==> !MatchesAt(p, j)
  {
    forall j | 0 <= j <= n ensures !MatchesAt(p, j) {
      if MatchesAt(p, j) {
        MatchBeforeSeparator(p, n, j);
      }
    }
  }

  /**
   * Name round trip: the constructor's second match splits a name `D-S` back
   * into `D` and `S`, so that `num + "-" + slug` is the name again.
   */
  lemma SplitNameRoundTrip(num: string, slug: string)
    requires IsNumber(num) && IsSlug(slug)
    ensures SplitName(num + "-" + slug) == Some((num, slug))
  {
    var w := num + "-" + slug;
    assert w + "" == w;
    MatchOfName(w, num, slug, "");
    LeftmostIs(w, 0);
    assert w[0..|num|] == num;
    assert w[|num| + 1..|w|] == slug;
  }

  /**
   * Once `parseName` has succeeded, the constructor's second match succeeds
   * too (line 61 never indexes a null match) and its two groups put together
   * give the name back.
   */
  lemma ParsedNameSplits(p: string)
    requires ParseName(p).Some?
    ensures SplitName(ParseName(p).value).Some?
    ensures var parts := SplitName(ParseName(p).value).value;
            IsNumber(parts.0) && IsSlug(parts.1) && parts.0 + "-" + parts.1 == ParseName(p).value
  {
    ParsedNameShape(p);
    var num, slug :| IsNumber(num) && IsSlug(slug) && ParseName(p).value == num + "-" + slug;
    SplitNameRoundTrip(num, slug);
  }

  /**
   * Decoding a path `dir/D-S<ext>` recovers `D-S` when `dir` holds no `\d+-`
   * and the extension, if any, starts with a dot.
   */
  lemma ParseNameUnderDir(dir: string, name: string, num: string, slug: string, ext: string)
    requires !HasNumberedRun(dir)
    requires IsNumber(num) && IsSlug(slug) && name == num + "-" + slug
    requires ext == [] || ext[0] == '.'
    ensures ParseName(dir + "/" + name + ext) == Some(name)
  {
    var pre := dir + "/";
    var rest := name + ext;
    var p := pre + rest;
    assert dir + "/" + name + ext == p;
    assert p[..|dir|] == dir;
    assert p[|dir|] == '/';
    NoMatchInCleanPrefix(p, |dir|);
    MatchOfName(name, num, slug, ext);
    ShiftMatch(pre, rest);
    LeftmostIs(p, |pre|);
    assert p[|pre|..|pre| + |name|] == name;
  }

  /** A parsed name parses to itself, also when it is put back under a clean directory. */
  lemma ParsedNameReparses(p: string, dir: string)
    requires ParseName(p).Some?
    requires !HasNumberedRun(dir)
    ensures ParseName(dir + "/" + ParseName(p).value) == ParseName(p)
  {
    var name := ParseName(p).value;
    ParsedNameSplits(p);
    var parts := SplitName(name).value;
    ParseNameUnderDir(dir, name, parts.0, parts.1, "");
    assert dir + "/" + name + "" == dir + "/" + name;
  }

  /**
   * Encode then decode: a path `dir/<formatName(title, num)><ext>` decodes to
   * the same name, the same number, and the humanised dasherised title.
   */
  lemma EncodeThenDecode(title: string, num: string, dir: string, ext: string, lib: Library)
    requires IsNumber(num) && IsSlug(lib.dasherize(title))
    requires !HasNumberedRun(dir)
    requires ext == [] || ext[0] == '.'
    ensures var name := FormatName(title, num, lib.dasherize);
            Decode(dir + "/" + name + ext, lib.humanize)
              == Some(Identity(name, num, lib.humanize(lib.dasherize(title))))
  {
    var slug := lib.dasherize(title);
    ParseNameUnderDir(dir, FormatName(title, num, lib.dasherize), num, slug, ext);
    SplitNameRoundTrip(num, slug);
  }

  /**
   * The path the three-argument constructor computes decodes back to its name
   * and number, when `path.join` puts a clean directory part, a `/` and the
   * name together.
   */
  lemma FormatPathDecodes(title: string, num: string, dir: string, prefix: string, lib: Library)
    requires IsNumber(num) && IsSlug(lib.dasherize(title))
    requires FormatPath(dir, FormatName(title, num, lib.dasherize), lib.join)
               == prefix + "/" + FormatName(title, num, lib.dasherize)
    requires !HasNumberedRun(prefix)
    ensures var name := FormatName(title, num, lib.dasherize);
            Decode(FormatPath(dir, name, lib.join), lib.humanize)
              == Some(Identity(name, num, lib.humanize(lib.dasherize(title))))
  {
    EncodeThenDecode(title, num, prefix, "", lib);
    assert prefix + "/" + FormatName(title, num, lib.dasherize) + ""
        == prefix + "/" + FormatName(title, num, lib.dasherize);
  }

  /**
   * A name taken from a decoded migration and joined back under a clean
   * directory decodes to the same identity, title included.
   */
  lemma DecodeStoredName(p: string, dir: string, prefix: string, lib: Library)
    requires Decode(p, lib.humanize).Some?
    requires lib.join(dir, Decode(p, lib.humanize).value.name)
               == prefix + "/" + Decode(p, lib.humanize).value.name
    requires !HasNumberedRun(prefix)
    ensures Decode(lib.join(dir, Decode(p, lib.humanize).value.name), lib.humanize) == Decode(p, lib.humanize)
  {
    ParsedNameReparses(p, prefix);
  }

  // ---------------------------------------------------------------------
  // Examples
  // ---------------------------------------------------------------------

  /** A file under a plain directory decodes to its base name without the extension. */
  lemma ExampleParse(p: string)
    requires p == "db/12-users.js"
    ensures ParseName(p) == Some("12-users")
  {
    assert !IsDigit(p[0]) && !IsDigit(p[1]) && !IsDigit(p[2]);
    DigitRunIs(p, 3, 2);
    NonDotRunIs(p, 6, 5);
    LeftmostIs(p, 3);
    assert p[3..11] == "12-users";
  }

  /** A directory part holding `1-` lets the match start inside the directory. */
  lemma ExampleDirectoryCapture(p: string)
    requires p == "a-1-b/2-c.js"
    ensures ParseName(p) == Some("1-b/2-c")
  {
    assert !IsDigit(p[0]) && !IsDigit(p[1]);
    DigitRunIs(p, 2, 1);
    NonDotRunIs(p, 4, 5);
    LeftmostIs(p, 2);
    assert p[2..9] == "1-b/2-c";
  }
}

/**
 * `companion.rs`: where `import_design` stores a design shared from the
 * companion web site, and the `sanitize` filter applied to its title and
 * author before they become part of a file name. The downloads and the
 * gallery database entry are I/O and are not modelled.
 */
module Companion {

  import opened Text

  /** The characters `sanitize` keeps: ASCII letters and digits, space, '-' and '_'. */
  predicate Allowed(c: char) {
    'a' <= c <= 'z' || 'A' <= c <= 'Z' || '0' <= c <= '9' || c == ' ' || c == '-' || c == '_'
  }

  /** The allowed characters of `s`, in order (the `filter` of `sanitize`). */
  function Keep(s: string): (r: string)
    ensures |r| <= |s|
    ensures forall i :: 0 <= i < |r| ==> Allowed(r[i])
    decreases |s|
  {
    if s == [] then [] else (if Allowed(s[0]) then [s[0]] else []) + Keep(s[1..])
  }

  /** The filter keeps every allowed character as often as it occurs and drops every other one. */
  lemma {:induction false} KeepCounts(s: string, c: char)
    ensures multiset(Keep(s))[c] == if Allowed(c) then multiset(s)[c] else 0
    decreases |s|
  {
    if s != [] {
      KeepCounts(s[1..], c);
      assert s == [s[0]] + s[1..];
    }
  }

  /** A text made only of allowed characters passes the filter unchanged. */
  lemma {:induction false} KeepAllowed(s: string)
    requires forall i :: 0 <= i < |s| ==> Allowed(s[i])
    ensures Keep(s) == s
    decreases |s|
  {
    if s != [] {
      KeepAllowed(s[1..]);
    }
  }

  /** `s` without its leading spaces. */
  function TrimStart(s: string): (r: string)
    ensures |r| <= |s| && r == s[|s| - |r|..]
    ensures forall i :: 0 <= i < |s| - |r| ==> s[i] == ' '
    ensures r == [] || r[0] != ' '
    decreases |s|
  {
    if s != [] && s[0] == ' ' then TrimStart(s[1..]) else s
  }

  /** `s` without its trailing spaces. */
  function TrimEnd(s: string): (r: string)
    ensures |r| <= |s| && r == s[..|r|]
    ensures forall i :: |r| <= i < |s| ==> s[i] == ' '
    ensures r == [] || r[|r| - 1] != ' '
    decreases |s|
  {
    if s != [] && s[|s| - 1] == ' ' then TrimEnd(s[..|s| - 1]) else s
  }

  /**
   * `str::trim` on a filtered text: the only white space an allowed
   * character can be is the space, so trimming removes the spaces at
   * both ends.
   */
  function Trim(s: string): (r: string)
    ensures r == [] || (r[0] != ' ' && r[|r| - 1] != ' ')
    ensures exists i, j ::
      && 0 <= i <= j <= |s| && r == s[i..j]
      && (forall k :: 0 <= k < i ==> s[k] == ' ')
      && (forall k :: j <= k < |s| ==> s[k] == ' ')
  {
    var t := TrimStart(s);
    var r := TrimEnd(t);
    var i, j := |s| - |t|, |s| - |t| + |r|;
    assert r == s[i..j];
    assert forall k :: j <= k < |s| ==> s[k] == t[k - i];
    r
  }

  /** A text without spaces at either end is its own trim. */
  lemma TrimClean(s: string)
    requires s == [] || (s[0] != ' ' && s[|s| - 1] != ' ')
    ensures Trim(s) == s
  {
  }

  /** The texts `sanitize` returns: non-empty, allowed characters only, no space at either end. */
  predicate Clean(s: string) {
    && s != []
    && (forall i :: 0 <= i < |s| ==> Allowed(s[i]))
    && s[0] != ' ' && s[|s| - 1] != ' '
  }

  /**
   * `sanitize`: the allowed characters, trimmed, or "Untitled" when
   * nothing is left.
   */
  function Sanitize(s: string): (r: string)
    ensures Clean(r)
  {
    var t := Trim(Keep(s));
    if t == [] then "Untitled" else t
  }

  /** A clean text is left alone. */
  lemma SanitizeClean(s: string)
    requires Clean(s)
    ensures Sanitize(s) == s
  {
    KeepAllowed(s);
    TrimClean(s);
  }

  /** Sanitizing twice is sanitizing once. */
  lemma SanitizeIdempotent(s: string)
    ensures Sanitize(Sanitize(s)) == Sanitize(s)
  {
    SanitizeClean(Sanitize(s));
  }

  /** A text with no allowed character other than the space becomes "Untitled". */
  lemma NothingSurvives(s: string)
    requires forall i :: 0 <= i < |s| ==> !Allowed(s[i]) || s[i] == ' '
    ensures Sanitize(s) == "Untitled"
  {
    var k := Keep(s);
    forall c | c != ' '
      ensures multiset(k)[c] == 0
    {
      KeepCounts(s, c);
      if Allowed(c) {
        assert forall i :: 0 <= i < |s| ==> s[i] != c;
        assert c !in multiset(s);
      }
    }
    assert forall i :: 0 <= i < |k| ==> k[i] == ' ' by {
      forall i | 0 <= i < |k|
        ensures k[i] == ' '
      {
        assert k[i] in multiset(k);
      }
    }
    assert TrimStart(k) == [];
  }

  // ---------------------------------------------------------------------
  // Where an imported design goes

  /** A design of kind "layout" (in any case) is a saved layout. */
  predicate IsLayout(kind: string) {
    Lower(kind) == "layout"
  }

  /** The folder under "Makeplace" the design goes to. */
  function Folder(kind: string): string {
    if IsLayout(kind) then "Save" else "Custom"
  }

  /** The label at the head of the file name. */
  function Label(kind: string): string {
    if IsLayout(kind) then "Layout" else "Design"
  }

  /** "[label] title by author.json", from the sanitized title and author. */
  function DesignFileName(kind: string, title: string, author: string): string {
    "[" + Label(kind) + "] " + Sanitize(title) + " by " + Sanitize(author) + ".json"
  }

  /** The target directory, as path components, and the file name. */
  datatype Target = Target(dir: seq<string>, fileName: string)

  /** The JSON file `import_design` downloads to. */
  function ImportTarget(installation: string, kind: string, title: string, author: string): (t: Target)
    ensures t.dir == [installation, "Makeplace", Folder(kind)]
    ensures t.fileName == DesignFileName(kind, title, author)
  {
    Target([installation, "Makeplace", Folder(kind)], DesignFileName(kind, title, author))
  }

  /** The characters a design file name is made of. */
  predicate NameChar(c: char) {
    Allowed(c) || c == '[' || c == ']' || c == '.'
  }

  predicate NameChars(s: string) {
    forall i :: 0 <= i < |s| ==> NameChar(s[i])
  }

  lemma NameCharsConcat(x: string, y: string)
    requires NameChars(x) && NameChars(y)
    ensures NameChars(x + y)
  {
    assert forall i :: |x| <= i < |x + y| ==> (x + y)[i] == y[i - |x|];
  }

  lemma SanitizedNameChars(s: string)
    ensures NameChars(Sanitize(s))
  {
  }

  lemma LabelNameChars(kind: string)
    ensures NameChars(Label(kind))
  {
  }

  /** "[tag] t by a.json" is a plain name when its parts are made of name characters. */
  lemma PlainName(name: string, tag: string, t: string, a: string)
    requires NameChars(tag) && NameChars(t) && NameChars(a)
    requires name == "[" + tag + "] " + t + " by " + a + ".json"
    ensures NameChars(name)
    ensures '/' !in name && '\\' !in name
    ensures name[0] == '[' && EndsWith(name, ".json")
  {
    assert NameChars("[") && NameChars("] ") && NameChars(" by ") && NameChars(".json");
    NameCharsConcat("[", tag);
    NameCharsConcat("[" + tag, "] ");
    NameCharsConcat("[" + tag + "] ", t);
    NameCharsConcat("[" + tag + "] " + t, " by ");
    NameCharsConcat("[" + tag + "] " + t + " by ", a);
    NameCharsConcat("[" + tag + "] " + t + " by " + a, ".json");
    assert forall i :: 0 <= i < |name| ==> name[i] != '/' && name[i] != '\\';
    assert name[|name| - 5..] == ".json";
  }

  /**
   * A design file name is a plain name inside the target folder: it has
   * no path separator, starts with '[' and ends with ".json", whatever
   * title and author the web site sends.
   */
  lemma FileNameIsPlain(kind: string, title: string, author: string)
    ensures NameChars(DesignFileName(kind, title, author))
    ensures '/' !in DesignFileName(kind, title, author) && '\\' !in DesignFileName(kind, title, author)
    ensures DesignFileName(kind, title, author)[0] == '[' && EndsWith(DesignFileName(kind, title, author), ".json")
  {
    SanitizedNameChars(title);
    SanitizedNameChars(author);
    LabelNameChars(kind);
    PlainName(DesignFileName(kind, title, author), Label(kind), Sanitize(title), Sanitize(author));
  }

  /** Layouts go to Makeplace/Save labelled "Layout"; every other kind to Makeplace/Custom labelled "Design". */
  lemma KindDecidesFolder(kind: string)
    ensures IsLayout(kind) ==> Folder(kind) == "Save" && Label(kind) == "Layout"
    ensures !IsLayout(kind) ==> Folder(kind) == "Custom" && Label(kind) == "Design"
    ensures IsLayout(Lower(kind)) == IsLayout(kind)
  {
    LowerIdempotent(kind);
  }
}

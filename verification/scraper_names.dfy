/** The GitBook scraper's naming helpers: `clean_filename`, which turns the
    path of a page URL into a flat Markdown file name, and
    `get_original_url`, which drops the `.md` suffix of a page URL. */
module ScraperNames {
  import opened Text

  const MdSuffix: string := ".md"

  /** One trailing ".md" removed, if there is one. */
  function DropMd(s: string): (r: string)
    ensures EndsWith(s, MdSuffix) ==> r + MdSuffix == s
    ensures !EndsWith(s, MdSuffix) ==> r == s
  {
    if EndsWith(s, MdSuffix) then s[..|s| - 3] else s
  }

  /** `get_original_url`. */
  function GetOriginalUrl(u: string): (r: string)
    ensures |r| <= |u|
    ensures r == u || r + MdSuffix == u
  {
    DropMd(u)
  }

  /** Exactly one suffix is dropped: a page URL with ".md" appended comes
      back as the page URL, whatever it ends in itself. */
  lemma OriginalUrlUndoesSuffix(u: string)
    ensures GetOriginalUrl(u + MdSuffix) == u
  {
    assert EndsWith(u + MdSuffix, MdSuffix) by {
      assert (u + MdSuffix)[|u|..] == MdSuffix;
    }
    assert (u + MdSuffix)[..|u|] == u;
  }

  /** A URL without the suffix is left as it is. */
  lemma OriginalUrlKeepsPlainUrls(u: string)
    requires !EndsWith(u, MdSuffix)
    ensures GetOriginalUrl(u) == u
  {
  }

  /** The characters `[\w\-_.]` keeps. */
  predicate Allowed(c: char) {
    IsWordChar(c) || c == '-' || c == '.'
  }

  /** `re.sub(r'[^\w\-_.]', '_', s)`. */
  function Sanitize(s: string): (r: string)
    ensures |r| == |s|
    ensures forall i :: 0 <= i < |s| ==> r[i] == if Allowed(s[i]) then s[i] else '_'
  {
    seq(|s|, i requires 0 <= i < |s| => if Allowed(s[i]) then s[i] else '_')
  }

  predicate AllAllowed(s: string) {
    forall i :: 0 <= i < |s| ==> Allowed(s[i])
  }

  /** No two underscores in a row. */
  predicate NoDoubleUnderscore(s: string) {
    forall i :: 0 <= i < |s| - 1 ==> !(s[i] == '_' && s[i + 1] == '_')
  }

  /** `re.sub(r'_+', '_', s)`: every run of underscores becomes one. */
  function Squeeze(s: string): (r: string)
    ensures |r| <= |s|
    ensures NoDoubleUnderscore(r)
    ensures forall i :: 0 <= i < |r| ==> r[i] in s
    ensures |s| > 0 ==> |r| > 0 && r[0] == s[0] && r[|r| - 1] == s[|s| - 1]
    decreases |s|
  {
    if |s| == 0 then []
    else
      var r := Squeeze(s[..|s| - 1]);
      var c := s[|s| - 1];
      if c == '_' && |r| > 0 && r[|r| - 1] == '_' then r
      else
        assert forall i :: 0 <= i < |r| ==> r[i] in s by {
          assert forall i :: 0 <= i < |r| ==> r[i] in s[..|s| - 1];
        }
        r + [c]
  }

  /** Squeezing leaves a string without doubled underscores as it is. */
  lemma {:induction false} SqueezeKeepsSingles(s: string)
    requires NoDoubleUnderscore(s)
    ensures Squeeze(s) == s
    decreases |s|
  {
    if |s| > 0 {
      var init := s[..|s| - 1];
      assert NoDoubleUnderscore(init);
      SqueezeKeepsSingles(init);
      if |init| > 0 {
        assert !(s[|s| - 2] == '_' && s[|s| - 1] == '_');
      }
    }
  }

  /** Squeezing removes underscores only: every other character stays, in
      order. */
  lemma {:induction false} SqueezeDropsOnlyUnderscores(s: string)
    ensures RemoveChar(Squeeze(s), '_') == RemoveChar(s, '_')
    decreases |s|
  {
    if |s| > 0 {
      var init := s[..|s| - 1];
      var r := Squeeze(init);
      var c := s[|s| - 1];
      SqueezeDropsOnlyUnderscores(init);
      if !(c == '_' && |r| > 0 && r[|r| - 1] == '_') {
        assert (r + [c])[..|r|] == r;
      }
    }
  }

  /** Steps two to five of `clean_filename`: leading slashes dropped, the
      remaining ones turned into underscores, disallowed characters replaced,
      runs of underscores squeezed, and underscores stripped from both ends. */
  function Tidy(path: string): string {
    var flat := ReplaceChar(LStrip(path, {'/'}), '/', '_');
    StripChars(Squeeze(Sanitize(flat)), {'_'})
  }

  const RootStem: string := "index"

  /** `clean_filename` on the path component of the URL. */
  function CleanFilename(path: string): (r: string)
    ensures EndsWith(r, MdSuffix) && |r| > |MdSuffix|
  {
    var stem := Tidy(DropMd(path));
    var name := (if |stem| == 0 then RootStem else stem) + MdSuffix;
    assert name[|name| - 3..] == MdSuffix;
    name
  }

  /** What a cleaned stem looks like: only allowed characters, no `/`, no
      doubled underscore, and no underscore at either end. */
  predicate IsCleanStem(s: string) {
    && AllAllowed(s)
    && NoDoubleUnderscore(s)
    && (|s| > 0 ==> s[0] != '_' && s[|s| - 1] != '_')
  }

  /** Every stem `Tidy` produces is clean. */
  lemma TidyIsClean(path: string)
    ensures IsCleanStem(Tidy(path))
  {
    var flat := ReplaceChar(LStrip(path, {'/'}), '/', '_');
    var q := Squeeze(Sanitize(flat));
    SqueezeKeepsAllowed(Sanitize(flat));
    StrippedUnderscoresClean(q);
  }

  /** Squeezing only keeps characters that were there. */
  lemma SqueezeKeepsAllowed(s: string)
    requires AllAllowed(s)
    ensures AllAllowed(Squeeze(s))
  {
    var q := Squeeze(s);
    forall i | 0 <= i < |q|
      ensures Allowed(q[i])
    {
      var j :| 0 <= j < |s| && s[j] == q[i];
    }
  }

  /** Stripping the underscores off a squeezed string of allowed characters
      leaves a clean stem. */
  lemma StrippedUnderscoresClean(q: string)
    requires AllAllowed(q) && NoDoubleUnderscore(q)
    ensures IsCleanStem(StripChars(q, {'_'}))
  {
    var g := StripChars(q, {'_'});
    var a := StripSlice(q, {'_'});
    StripBounds(q, {'_'});
    assert forall i :: 0 <= i < |g| ==> g[i] == q[a + i];
  }

  /** The stem of a file name: the name without its ".md". */
  lemma CleanFilenameStem(path: string)
    ensures var stem := CleanFilename(path)[..|CleanFilename(path)| - 3];
      && |stem| > 0
      && IsCleanStem(stem)
      && (Tidy(DropMd(path)) == [] ==> stem == RootStem)
      && (Tidy(DropMd(path)) != [] ==> stem == Tidy(DropMd(path)))
  {
    var t := Tidy(DropMd(path));
    StemOfName(path);
    if |t| == 0 {
      RootStemIsClean();
    } else {
      TidyIsClean(DropMd(path));
    }
  }

  /** The name is the stem followed by ".md". */
  lemma StemOfName(path: string)
    ensures var t := Tidy(DropMd(path));
      CleanFilename(path)[..|CleanFilename(path)| - 3] == if |t| == 0 then RootStem else t
  {
    var t := Tidy(DropMd(path));
    var stem := if |t| == 0 then RootStem else t;
    assert CleanFilename(path) == stem + MdSuffix;
    assert (stem + MdSuffix)[..|stem|] == stem;
  }

  lemma RootStemIsClean()
    ensures IsCleanStem(RootStem)
  {
    assert forall i :: 0 <= i < |RootStem| ==> IsAsciiLower(RootStem[i]);
  }

  /** A clean stem is its own tidy form, so tidying twice changes nothing. */
  lemma TidyKeepsCleanStems(s: string)
    requires IsCleanStem(s)
    ensures Tidy(s) == s
  {
    assert LStrip(s, {'/'}) == s by {
      if |s| > 0 {
        assert s[0] != '/';
      }
    }
    assert ReplaceChar(s, '/', '_') == s;
    assert Sanitize(s) == s;
    SqueezeKeepsSingles(s);
    StripOfStripped(s, {'_'});
  }

  lemma TidyIsIdempotent(path: string)
    ensures Tidy(Tidy(path)) == Tidy(path)
  {
    TidyIsClean(path);
    TidyKeepsCleanStems(Tidy(path));
  }

  /** A path of slashes only, such as the site root "/", names "index.md". */
  lemma RootPathIsIndex(path: string)
    requires forall i :: 0 <= i < |path| ==> path[i] == '/'
    ensures CleanFilename(path) == RootStem + MdSuffix
  {
    assert !EndsWith(path, MdSuffix) by {
      if |path| >= 3 {
        assert path[|path| - 3..][2] == path[|path| - 1] == '/';
      }
    }
    assert LStrip(path, {'/'}) == [];
  }
}

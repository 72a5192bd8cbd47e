/** How a link href designates a note path: the three path patterns of the href lookup,
    as string predicates, and the match test used when links are re-targeted. */
module HrefMatch {
  import opened Strings

  datatype LinkType = Implicit | Markdown | WikiLink

  datatype Link = Link(href: string, kind: LinkType, external: bool)

  /** The part of the href before the first `#`. */
  function StripAnchor(href: string): (r: string)
    ensures '#' !in r && HasPrefix(href, r) && (r == href || href[|r|] == '#')
  {
    if href == [] || href[0] == '#' then [] else [href[0]] + StripAnchor(href[1..])
  }

  /** Path patterns, from the most to the least specific lookup of a partial href. */
  datatype Tier = Filename | Anywhere | Strict

  /** `^(.*` + `/)?`: the text before `k` is empty or one line ending with a slash. */
  predicate DirectoryPrefix(path: string, k: nat)
    requires k <= |path|
  {
    k == 0 || (path[k - 1] == '/' && '\n' !in path[..k - 1])
  }

  /** The href lies in the last component: `^(.*` + `/)?[^/]*href[^/]*$`. */
  predicate FilenameMatch(href: string, path: string) {
    exists i: nat :: i <= |path| && At(path, href, i) && '/' !in path[i + |href|..]
      && exists k: nat :: k <= i && DirectoryPrefix(path, k) && '/' !in path[k..i]
  }

  /** The path is the href plus a suffix of its last component, or lies below it:
      `^(?:href[^/]*|href/.+)$`. */
  predicate StrictMatch(href: string, path: string) {
    HasPrefix(path, href)
    && var rest := path[|href|..];
       '/' !in rest || (rest[0] == '/' && |rest| >= 2 && '\n' !in rest[1..])
  }

  predicate TierMatch(tier: Tier, href: string, path: string) {
    match tier
    case Filename => FilenameMatch(href, path)
    case Anywhere => Contains(path, href)
    case Strict => StrictMatch(href, path)
  }

  /** The href without its anchor finds the path, by the patterns its type allows. */
  predicate HrefMatches(link: Link, path: string) {
    var href := StripAnchor(link.href);
    (link.kind == WikiLink && (FilenameMatch(href, path) || Contains(path, href))) || StrictMatch(href, path)
  }

  /** linkMatchesPath. Its branch on the href relative to the source never matches: it runs only
      when that relative href could not be computed and is empty. */
  predicate LinkMatches(link: Link, path: string) {
    StripAnchor(link.href) != "" && HrefMatches(link, path)
  }

  /** Every tier only finds paths that contain the href. */
  lemma TierContains(tier: Tier, href: string, path: string)
    requires TierMatch(tier, href, path)
    ensures Contains(path, href)
  {
    if tier == Strict {
      assert At(path, href, 0);
    }
  }

  /** For a wiki link the three patterns together mean "the path contains the href". */
  lemma WikiMatchIsContains(link: Link, path: string)
    requires link.kind == WikiLink && StripAnchor(link.href) != ""
    ensures LinkMatches(link, path) <==> Contains(path, StripAnchor(link.href))
  {
    if LinkMatches(link, path) && StrictMatch(StripAnchor(link.href), path) {
      TierContains(Strict, StripAnchor(link.href), path);
    }
  }

  /** The path is the href and the end of its last component. */
  predicate Completes(href: string, path: string, rest: string) {
    path == href + rest && '/' !in rest
  }

  /** The path lies below the folder. */
  predicate Below(folder: string, path: string, rest: string) {
    path == folder + "/" + rest && rest != "" && '\n' !in rest
  }

  /** An href finds the notes it begins the path of, up to the rest of a file name, and all the notes below
      the folder it names, but no note of another folder whose name it begins. */
  lemma StrictMatchIff(href: string, path: string)
    ensures StrictMatch(href, path) <==> exists rest :: Completes(href, path, rest) || Below(href, path, rest)
  {
    if StrictMatch(href, path) {
      var rest := path[|href|..];
      assert path == href + rest;
      if '/' !in rest {
        assert Completes(href, path, rest);
      } else {
        assert rest == "/" + rest[1..];
        assert Below(href, path, rest[1..]);
      }
    }
    if rest :| Completes(href, path, rest) {
      assert path[|href|..] == rest;
    }
    if rest :| Below(href, path, rest) {
      assert path[|href|..] == "/" + rest;
    }
  }

  /** The path is a folder, then a file name with the href in it. */
  predicate InFilename(href: string, path: string, folder: string, before: string, after: string) {
    && path == folder + before + href + after && '/' !in before && '/' !in after
    && (folder == "" || (folder[|folder| - 1] == '/' && '\n' !in folder[..|folder| - 1]))
  }

  lemma FilenameMatchIs(href: string, path: string) returns (folder: string, before: string, after: string)
    requires FilenameMatch(href, path)
    ensures InFilename(href, path, folder, before, after)
  {
    var i: nat :| i <= |path| && At(path, href, i) && '/' !in path[i + |href|..]
      && exists k: nat :: k <= i && DirectoryPrefix(path, k) && '/' !in path[k..i];
    var k: nat :| k <= i && DirectoryPrefix(path, k) && '/' !in path[k..i];
    folder, before, after := path[..k], path[k..i], path[i + |href|..];
    assert folder[..|folder|] == folder && (k > 0 ==> folder[..k - 1] == path[..k - 1]);
    assert path == folder + before + href + after;
  }

  lemma InFilenameMatches(href: string, path: string, folder: string, before: string, after: string)
    requires InFilename(href, path, folder, before, after)
    ensures FilenameMatch(href, path)
  {
    var k, i := |folder|, |folder| + |before|;
    assert path[i..i + |href|] == href && path[i + |href|..] == after && path[k..i] == before;
    assert path[..k] == folder && (k > 0 ==> path[..k - 1] == folder[..k - 1]);
    assert At(path, href, i) && DirectoryPrefix(path, k);
  }

  lemma FilenameMatchIff(href: string, path: string)
    ensures FilenameMatch(href, path) <==> exists folder, before, after :: InFilename(href, path, folder, before, after)
  {
    if FilenameMatch(href, path) {
      var folder, before, after := FilenameMatchIs(href, path);
    }
    if folder, before, after :| InFilename(href, path, folder, before, after) {
      InFilenameMatches(href, path, folder, before, after);
    }
  }
}

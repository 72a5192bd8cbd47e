/** When the incremental re-targeting of links agrees with resolving them from scratch, and when
    it does not. */
module LinkTargets {
  import opened Strings
  import opened HrefMatch
  import opened IndexSpec
  import opened IndexInvariants

  // --- Whether a link has a target ---

  /** A link, external or not, is resolved to no note exactly when its href is a URL or designates no
      path: only links whose href is a URL are sure to have no target. */
  lemma NoTargetIff(env: Env, notes: map<nat, NoteRow>, link: Link, r: Option<nat>)
    requires Resolves(env, notes, link, r)
    ensures r.None? <==> env.isUrl(link.href) || forall n | n in notes :: !Designates(env, link, notes[n].path)
  {
    if !env.isUrl(link.href) {
      ResolvesIsBestRanked(env, notes, link, r);
      forall n | n in notes ensures Rank(env, link, notes[n].path) == NO_RANK
        <==> !Designates(env, link, notes[n].path) {
        RankIsDesignation(env, link, notes[n].path);
      }
    }
  }

  /** The target resolution gave matches the link: for an href that is only an anchor, there is none; for
      another href, it was not found through the relative form of the href, or the href itself finds
      it as well. */
  lemma GivenTargetMatches(env: Env, notes: map<nat, NoteRow>, link: Link, r: Option<nat>)
    requires !env.isUrl(link.href) && Resolves(env, notes, link, r)
    ensures TargetMatches(notes, link, r) <==>
      if StripAnchor(link.href) == "" then r.None?
      else FoundRelative(env, notes, link) ==> r.Some? && r.value in notes && HrefMatches(link, notes[r.value].path)
  {
    ResolveIsOk(env, notes, LinkRow(0, r, link));
  }

  ghost predicate TargetMatches(notes: map<nat, NoteRow>, link: Link, r: Option<nat>) {
    r.Some? ==> r.value in notes && LinkMatches(link, notes[r.value].path)
  }

  lemma {:induction false} ShortestFrom(notes: map<nat, NoteRow>, tier: Tier, href: string, n: nat)
    requires n in notes && TierMatch(tier, href, notes[n].path)
    ensures exists m :: Shortest(notes, tier, href, m)
    decreases |notes[n].path|
  {
    if !Shortest(notes, tier, href, n) {
      var m :| m in notes && TierMatch(tier, href, notes[m].path) && |notes[m].path| < |notes[n].path|;
      ShortestFrom(notes, tier, href, m);
    }
  }

  lemma ShortestExists(notes: map<nat, NoteRow>, tier: Tier, href: string)
    requires HasMatch(notes, tier, href)
    ensures exists m :: Shortest(notes, tier, href, m)
  {
    var n :| n in notes && TierMatch(tier, href, notes[n].path);
    ShortestFrom(notes, tier, href, n);
  }

  /** Resolution always has a result. */
  lemma ResolvesToSomething(env: Env, notes: map<nat, NoteRow>, link: Link) returns (r: Option<nat>)
    ensures Resolves(env, notes, link, r)
  {
    var rel, h := env.rel(link.href), StripAnchor(link.href);
    var wiki := link.kind == WikiLink;
    r := None;
    if env.isUrl(link.href) {
    } else if FoundRelative(env, notes, link) {
      r := SomeShortest(notes, Strict, StripAnchor(rel.value));
    } else if wiki && HasMatch(notes, Filename, h) {
      r := SomeShortest(notes, Filename, h);
    } else if wiki && HasMatch(notes, Anywhere, h) {
      r := SomeShortest(notes, Anywhere, h);
    } else if HasMatch(notes, Strict, h) {
      r := SomeShortest(notes, Strict, h);
    }
  }

  lemma SomeShortest(notes: map<nat, NoteRow>, tier: Tier, href: string) returns (r: Option<nat>)
    requires HasMatch(notes, tier, href)
    ensures r.Some? && Shortest(notes, tier, href, r.value)
  {
    ShortestExists(notes, tier, href);
    var m :| Shortest(notes, tier, href, m);
    r := Some(m);
  }

  /** Resolution only gives targets that match the link, in the sense used to re-target links, exactly
      when: for an href that is only an anchor, it designates no path; for another href, if some path
      is found through its relative form, the href itself finds the shortest of those as well. */
  lemma TargetMatchesIff(env: Env, notes: map<nat, NoteRow>, link: Link)
    requires !env.isUrl(link.href)
    ensures (forall r | Resolves(env, notes, link, r) :: TargetMatches(notes, link, r)) <==>
      if StripAnchor(link.href) == "" then forall n | n in notes :: !Designates(env, link, notes[n].path)
      else FoundRelative(env, notes, link) ==>
        forall n | Shortest(notes, Strict, StripAnchor(env.rel(link.href).value), n) :: HrefMatches(link, notes[n].path)
  {
    forall r | Resolves(env, notes, link, r)
      ensures TargetMatches(notes, link, r) <==>
        if StripAnchor(link.href) == "" then forall n | n in notes :: !Designates(env, link, notes[n].path)
        else FoundRelative(env, notes, link) ==> r.Some? && r.value in notes && HrefMatches(link, notes[r.value].path)
    {
      GivenTargetMatches(env, notes, link, r);
      NoTargetIff(env, notes, link, r);
    }
    var found := ResolvesToSomething(env, notes, link);
    if StripAnchor(link.href) != "" && FoundRelative(env, notes, link) {
      forall n | Shortest(notes, Strict, StripAnchor(env.rel(link.href).value), n)
        ensures Resolves(env, notes, link, Some(n))
      {
      }
    }
  }

  /** Some path is found through the href made relative to the root. */
  ghost predicate FoundRelative(env: Env, notes: map<nat, NoteRow>, link: Link) {
    env.rel(link.href).Some? && HasMatch(notes, Strict, StripAnchor(env.rel(link.href).value))
  }

  /** For an href that is its own relative form, that is: the href is not only an anchor, or nothing
      is found by it, which for a wiki link means that there is no note and for another link that
      none is at the root of the notebook. */
  lemma EmptyHrefMismatch(env: Env, notes: map<nat, NoteRow>, link: Link, r: Option<nat>)
    requires !env.isUrl(link.href) && env.rel(link.href) == Some(link.href) && Resolves(env, notes, link, r)
    ensures (r.Some? ==> r.value in notes && LinkMatches(link, notes[r.value].path)) <==>
      StripAnchor(link.href) != ""
        || !(exists n | n in notes :: link.kind == WikiLink || StrictMatch("", notes[n].path))
  {
    GivenTargetMatches(env, notes, link, r);
    NoTargetIff(env, notes, link, r);
    forall n | n in notes ensures Contains(notes[n].path, "") {
      assert At(notes[n].path, "", 0);
    }
  }

  lemma PrefixesNest(text: string, a: string, b: string)
    requires HasPrefix(text, a) && HasPrefix(text, b)
    ensures HasPrefix(a, b) || HasPrefix(b, a)
  {
    if |a| <= |b| {
      assert b[..|a|] == text[..|b|][..|a|] == a;
    } else {
      assert a[..|b|] == text[..|a|][..|b|] == b;
    }
  }

  /** An href like `./x`, neither a prefix nor an extension of its relative form, is never matched by
      the note it resolves to, unless it is a wiki link: that link is not re-targeted any more. */
  lemma RelativeTargetNeverMatches(env: Env, notes: map<nat, NoteRow>, link: Link, r: Option<nat>)
    requires !env.isUrl(link.href) && link.kind != WikiLink && Resolves(env, notes, link, r)
      && FoundRelative(env, notes, link)
    requires var h, rel := StripAnchor(link.href), StripAnchor(env.rel(link.href).value);
      !HasPrefix(h, rel) && !HasPrefix(rel, h)
    ensures r.Some? && r.value in notes && !LinkMatches(link, notes[r.value].path)
  {
    var h, rel := StripAnchor(link.href), StripAnchor(env.rel(link.href).value);
    var path := notes[r.value].path;
    if HasPrefix(path, h) {
      PrefixesNest(path, h, rel);
    }
  }

  /** For a link that is not a wiki link, an optimal target is any target resolution could give. */
  lemma OptimalIsFresh(env: Env, notes: map<nat, NoteRow>, row: LinkRow)
    requires Internal(env, row.link) && Usable(env, row.link) && row.link.kind != WikiLink
    ensures OptimalTarget(env, notes, row) <==> Resolves(env, notes, row.link, row.target)
  {
  }

  // --- Resolution prefers patterns, re-targeting prefers short paths ---

  const NO_RANK := 4

  /** Order in which resolution prefers a path: found through the relative href, then in the file
      name, then anywhere, then from the start of the path. */
  function Rank(env: Env, link: Link, path: string): nat {
    var h := StripAnchor(link.href);
    if env.rel(link.href).Some? && StrictMatch(StripAnchor(env.rel(link.href).value), path) then 0
    else if link.kind == WikiLink && FilenameMatch(h, path) then 1
    else if link.kind == WikiLink && Contains(path, h) then 2
    else if StrictMatch(h, path) then 3
    else NO_RANK
  }

  /** `a` is at least as good a match as `b`: better rank, or same rank and no longer. */
  predicate AtLeastAsGood(env: Env, link: Link, a: string, b: string) {
    Rank(env, link, a) < Rank(env, link, b) || (Rank(env, link, a) == Rank(env, link, b) && |a| <= |b|)
  }

  ghost predicate BestRanked(env: Env, notes: map<nat, NoteRow>, link: Link, r: Option<nat>) {
    match r
    case None => forall n | n in notes :: Rank(env, link, notes[n].path) == NO_RANK
    case Some(t) => t in notes && Rank(env, link, notes[t].path) < NO_RANK
                    && forall n | n in notes :: AtLeastAsGood(env, link, notes[t].path, notes[n].path)
  }

  lemma RankIsDesignation(env: Env, link: Link, path: string)
    ensures Rank(env, link, path) < NO_RANK <==> Designates(env, link, path)
    ensures LinkMatches(link, path) ==> Rank(env, link, path) < NO_RANK
  {
  }

  lemma WikiRanks(env: Env, link: Link, path: string)
    requires link.kind == WikiLink
    ensures Rank(env, link, path) != 3
    ensures TierMatch(Filename, StripAnchor(link.href), path) && Rank(env, link, path) != 0
      <==> Rank(env, link, path) == 1
    ensures TierMatch(Anywhere, StripAnchor(link.href), path) && Rank(env, link, path) != 0
      <==> 1 <= Rank(env, link, path) <= 2
    ensures TierMatch(Strict, StripAnchor(link.href), path) ==> TierMatch(Anywhere, StripAnchor(link.href), path)
  {
    if StrictMatch(StripAnchor(link.href), path) {
      TierContains(Strict, StripAnchor(link.href), path);
    }
  }

  /** Whatever the href, resolution picks a note of best rank and least length. */
  lemma ResolvesIsBestRanked(env: Env, notes: map<nat, NoteRow>, link: Link, r: Option<nat>)
    requires !env.isUrl(link.href)
    ensures Resolves(env, notes, link, r) <==> BestRanked(env, notes, link, r)
  {
    if FoundRelative(env, notes, link) {
      var rel := StripAnchor(env.rel(link.href).value);
      var n :| n in notes && TierMatch(Strict, rel, notes[n].path);
      assert Rank(env, link, notes[n].path) == 0;
      assert forall n | n in notes :: TierMatch(Strict, rel, notes[n].path) <==> Rank(env, link, notes[n].path) == 0;
    } else {
      assert forall n | n in notes :: Rank(env, link, notes[n].path) != 0;
      if link.kind == WikiLink {
        WikiIsBestRanked(env, notes, link, r);
      } else {
        var h := StripAnchor(link.href);
        assert forall n | n in notes :: TierMatch(Strict, h, notes[n].path) <==> Rank(env, link, notes[n].path) == 3;
      }
    }
  }

  lemma WikiIsBestRanked(env: Env, notes: map<nat, NoteRow>, link: Link, r: Option<nat>)
    requires link.kind == WikiLink && forall n | n in notes :: Rank(env, link, notes[n].path) != 0
    ensures FindsByHref(notes, link.href, true, r) <==> BestRanked(env, notes, link, r)
  {
    var h := StripAnchor(link.href);
    forall n | n in notes
      ensures TierMatch(Filename, h, notes[n].path) <==> Rank(env, link, notes[n].path) == 1
      ensures TierMatch(Anywhere, h, notes[n].path) <==> Rank(env, link, notes[n].path) <= 2
      ensures TierMatch(Strict, h, notes[n].path) ==> TierMatch(Anywhere, h, notes[n].path)
      ensures Rank(env, link, notes[n].path) != 3
    {
      WikiRanks(env, link, notes[n].path);
    }
    if HasMatch(notes, Filename, h) {
      var n :| n in notes && TierMatch(Filename, h, notes[n].path);
      assert Rank(env, link, notes[n].path) == 1;
    } else if HasMatch(notes, Anywhere, h) {
      var n :| n in notes && TierMatch(Anywhere, h, notes[n].path);
      assert Rank(env, link, notes[n].path) == 2;
    }
  }

  /** Re-targeting makes the right choice between the current target, if any, and a new path: a path the
      link designates is not missed, and of two paths it keeps the one resolution prefers. */
  predicate ChoosesRight(env: Env, link: Link, current: Option<string>, path: string) {
    match current
    case None => Designates(env, link, path) ==> LinkMatches(link, path)
    case Some(target) =>
      if LinkMatches(link, path) && (target == "" || |path| <= |target|) then AtLeastAsGood(env, link, path, target)
      else AtLeastAsGood(env, link, target, path)
  }

  function PathOf(notes: map<nat, NoteRow>, target: Option<nat>): Option<string> {
    if target.Some? && target.value in notes then Some(notes[target.value].path) else None
  }

  /** Re-targeting a freshly resolved link to a note added since gives what resolving again would
      give exactly when it chooses right between the two paths. */
  lemma RetargetIsFresh(env: Env, notes: map<nat, NoteRow>, row: LinkRow, id: nat)
    requires Internal(env, row.link) && id in notes && Resolves(env, notes - {id}, row.link, row.target)
    ensures Resolves(env, notes, row.link, RetargetRow(notes, row, id, notes[id].path).target)
       <==> ChoosesRight(env, row.link, PathOf(notes, row.target), notes[id].path)
  {
    var link, path, before := row.link, notes[id].path, notes - {id};
    var r' := RetargetRow(notes, row, id, path).target;
    ResolvesIsBestRanked(env, before, link, row.target);
    ResolvesIsBestRanked(env, notes, link, r');
    RankIsDesignation(env, link, path);
    assert forall n | n in notes :: n == id || (n in before && before[n] == notes[n]);
    if row.target.Some? {
      BestOfTwo(env, notes, link, id, row.target.value);
    }
  }

  /** Once `t` is best among the other notes, only `t` and the new note compete. */
  lemma BestOfTwo(env: Env, notes: map<nat, NoteRow>, link: Link, id: nat, t: nat)
    requires id in notes && BestRanked(env, notes - {id}, link, Some(t))
    ensures BestRanked(env, notes, link, Some(t)) <==> AtLeastAsGood(env, link, notes[t].path, notes[id].path)
    ensures BestRanked(env, notes, link, Some(id)) <==> AtLeastAsGood(env, link, notes[id].path, notes[t].path)
  {
    var before := notes - {id};
    assert t in before;
    forall n | n in notes && n != id ensures AtLeastAsGood(env, link, notes[t].path, notes[n].path) {
      assert before[n] == notes[n];
    }
  }

  /** Links that are not wiki links and have a usable href have a single rank, so they are always
      re-targeted right. */
  lemma RetargetIsFreshOutsideWiki(env: Env, notes: map<nat, NoteRow>, row: LinkRow, id: nat)
    requires Internal(env, row.link) && Usable(env, row.link) && id in notes
    requires row.link.kind != WikiLink && Resolves(env, notes - {id}, row.link, row.target)
    ensures Resolves(env, notes, row.link, RetargetRow(notes, row, id, notes[id].path).target)
  {
    RetargetIsFresh(env, notes, row, id);
    if row.target.Some? {
      ResolvesIsBestRanked(env, notes - {id}, row.link, row.target);
      RankIsDesignation(env, row.link, notes[row.target.value].path);
      RankIsDesignation(env, row.link, notes[id].path);
    }
  }

  // --- Remove ---

  /** A link that loses its target is optimal without one exactly when it matches no other note. */
  lemma UnlinkedOptimalIff(env: Env, notes: map<nat, NoteRow>, row: LinkRow, id: nat)
    requires OptimalTarget(env, notes, row) && id in notes
    ensures OptimalTarget(env, notes - {id}, Unlinked(row, id)) <==>
      (row.target == Some(id) ==> forall n | n in notes && n != id :: !LinkMatches(row.link, notes[n].path))
  {
    var rest := notes - {id};
    assert forall n :: n in rest <==> n in notes && n != id;
    assert forall n | n in rest :: rest[n] == notes[n];
  }

  /** Remove leaves the inbound links of the note without target and does not look for another
      match: targets stay optimal exactly when none of those links matches another note. */
  lemma RemoveOptimalIff(env: Env, db: Db, id: nat)
    requires Optimal(env, db.notes.rows, db.links) && id in db.notes.rows
    ensures var d := AfterRemove(db, id);
      Optimal(env, d.notes.rows, d.links) <==>
        forall l | l in db.links.rows && Internal(env, db.links.rows[l].link)
                   && db.links.rows[l].source != id && db.links.rows[l].target == Some(id) ::
          forall n | n in db.notes.rows && n != id :: !LinkMatches(db.links.rows[l].link, db.notes.rows[n].path)
  {
    var d := AfterRemove(db, id);
    forall l | l in d.links.rows && Internal(env, d.links.rows[l].link)
      ensures OptimalTarget(env, d.notes.rows, d.links.rows[l]) <==>
        (db.links.rows[l].target == Some(id) ==>
           forall n | n in db.notes.rows && n != id :: !LinkMatches(db.links.rows[l].link, db.notes.rows[n].path))
    {
      assert d.links.rows[l] == Unlinked(db.links.rows[l], id);
      UnlinkedOptimalIff(env, db.notes.rows, db.links.rows[l], id);
    }
  }
}

/**
 Paper profiles: what validation accepts, and what matching a label then finds. Label
 normalisation and size parsing are parameters; sizes are reals with the shorter side first.
 */
module PaperProfiles {
  import opened RealArithmetic
  import opened Wrappers

  datatype Size = Size(short: real, long: real)

  /** `normalize_label`, and `parse_paper_size` followed by `orientation_independent`. */
  datatype Labels = Labels(normalize: string -> string, parse: string -> Option<Size>)

  /** `settingsFit` stands for the checks of one profile's media, template and digest fields. */
  datatype Profile = Profile(id: string, labels: seq<string>, tolerance: real, settingsFit: bool)

  datatype ProfileError = WrongCount | DuplicateIds | InvalidProfile | SharedLabel | OverlappingSizes

  datatype Outcome = Found(profile: Profile) | NotFound | Ambiguous

  /* ------------------------------------------------------------ what one profile covers */

  predicate Claims(l: Labels, p: Profile, normalized: string) {
    exists i :: 0 <= i < |p.labels| && l.normalize(p.labels[i]) == normalized
  }

  predicate Close(a: Size, b: Size, tolerance: real) {
    Abs(a.short - b.short) <= tolerance && Abs(a.long - b.long) <= tolerance
  }

  /** Neither side of `size` is further than the tolerance from that of `center`, either way. */
  predicate InBox(center: Size, size: Size, tolerance: real) {
    && center.short - tolerance <= size.short && size.short <= center.short + tolerance
    && center.long - tolerance <= size.long && size.long <= center.long + tolerance
  }

  predicate Covers(l: Labels, p: Profile, size: Size) {
    exists i :: 0 <= i < |p.labels| && l.parse(p.labels[i]).Some? && Close(l.parse(p.labels[i]).value, size, p.tolerance)
  }

  predicate SizesMeet(l: Labels, p: Profile, q: Profile, i: nat, j: nat)
    requires i < |p.labels| && j < |q.labels|
  {
    && l.parse(p.labels[i]).Some? && l.parse(q.labels[j]).Some?
    && Close(l.parse(p.labels[i]).value, l.parse(q.labels[j]).value, p.tolerance + q.tolerance)
  }

  predicate Overlap(l: Labels, p: Profile, q: Profile) {
    exists i, j :: 0 <= i < |p.labels| && 0 <= j < |q.labels| && SizesMeet(l, p, q, i, j)
  }

  predicate ShareLabel(l: Labels, p: Profile, q: Profile) {
    exists i, j :: 0 <= i < |p.labels| && 0 <= j < |q.labels| && l.normalize(p.labels[i]) == l.normalize(q.labels[j])
  }

  /* ------------------------------------------------------------ validation */

  predicate FieldsFit(p: Profile) {
    0.0 <= p.tolerance <= 50.0 && p.settingsFit
  }

  /** What a configuration has to be: profiles that differ in id, in every label and in every size. */
  predicate Acceptable(l: Labels, profiles: seq<Profile>) {
    && 1 <= |profiles| <= 100
    && (forall i :: 0 <= i < |profiles| ==> FieldsFit(profiles[i]))
    && (forall i, j :: 0 <= i < j < |profiles| ==>
          && profiles[i].id != profiles[j].id
          && !ShareLabel(l, profiles[i], profiles[j]) && !Overlap(l, profiles[i], profiles[j]))
  }

  predicate Unique(profiles: seq<Profile>) {
    forall i, j :: 0 <= i < j < |profiles| ==> profiles[i].id != profiles[j].id
  }

  /** The first profile from the `n`-th on with a bad field, or with a label of an earlier profile, decides the error. */
  function LabelsError(l: Labels, profiles: seq<Profile>, n: nat): Option<ProfileError>
    requires n <= |profiles|
    decreases |profiles| - n
  {
    if n == |profiles| then None
    else if !FieldsFit(profiles[n]) then Some(InvalidProfile)
    else if exists j :: 0 <= j < n && ShareLabel(l, profiles[j], profiles[n]) then Some(SharedLabel)
    else LabelsError(l, profiles, n + 1)
  }

  predicate SomeOverlap(l: Labels, profiles: seq<Profile>) {
    exists i, j :: 0 <= i < j < |profiles| && Overlap(l, profiles[i], profiles[j])
  }

  /** The first error of `_validate_profiles`. */
  function ProfilesError(l: Labels, profiles: seq<Profile>): Option<ProfileError> {
    if !(1 <= |profiles| <= 100) then Some(WrongCount)
    else if !Unique(profiles) then Some(DuplicateIds)
    else if LabelsError(l, profiles, 0).Some? then LabelsError(l, profiles, 0)
    else if SomeOverlap(l, profiles) then Some(OverlappingSizes)
    else None
  }

  lemma {:induction false} NoLabelsError(l: Labels, profiles: seq<Profile>, n: nat)
    requires n <= |profiles|
    ensures LabelsError(l, profiles, n).None? <==>
      && (forall i :: n <= i < |profiles| ==> FieldsFit(profiles[i]))
      && (forall i, j :: 0 <= i < j && n <= j < |profiles| ==> !ShareLabel(l, profiles[i], profiles[j]))
    decreases |profiles| - n
  {
    hide FieldsFit, ShareLabel;
    if n < |profiles| {
      NoLabelsError(l, profiles, n + 1);
    }
  }

  lemma {:induction false} BadFieldMeans(l: Labels, profiles: seq<Profile>, n: nat)
    requires n <= |profiles|
    ensures LabelsError(l, profiles, n) == Some(InvalidProfile) ==> exists i :: 0 <= i < |profiles| && !FieldsFit(profiles[i])
    decreases |profiles| - n
  {
    hide FieldsFit, ShareLabel;
    if n < |profiles| {
      BadFieldMeans(l, profiles, n + 1);
    }
  }

  /** Nothing is refused exactly when the profiles are acceptable. */
  lemma NoErrorMeans(l: Labels, profiles: seq<Profile>)
    ensures ProfilesError(l, profiles).None? <==> Acceptable(l, profiles)
  {
    NoLabelsError(l, profiles, 0);
    hide FieldsFit, ShareLabel, Overlap, LabelsError;
  }

  method ProfilesOverlap(l: Labels, left: Profile, right: Profile) returns (overlap: bool)
    ensures overlap <==> Overlap(l, left, right)
  {
    for i := 0 to |left.labels|
      invariant forall k, m :: 0 <= k < i && 0 <= m < |right.labels| ==> !SizesMeet(l, left, right, k, m)
    {
      var leftSize := l.parse(left.labels[i]);
      if leftSize.Some? {
        for j := 0 to |right.labels|
          invariant forall m :: 0 <= m < j ==> !SizesMeet(l, left, right, i, m)
        {
          var rightSize := l.parse(right.labels[j]);
          if rightSize.Some? && Close(leftSize.value, rightSize.value, left.tolerance + right.tolerance) {
            assert SizesMeet(l, left, right, i, j);
            return true;
          }
        }
      }
    }
    return false;
  }

  /** The dictionary of labels after the first `n` profiles: who owns which normalized label. */
  ghost predicate Owners(l: Labels, profiles: seq<Profile>, n: nat, aliases: map<string, string>) {
    && n <= |profiles|
    && (forall i, k :: 0 <= i < n && 0 <= k < |profiles[i].labels| ==>
          var name := l.normalize(profiles[i].labels[k]); name in aliases && aliases[name] == profiles[i].id)
    && (forall name :: name in aliases ==> exists i :: 0 <= i < n && profiles[i].id == aliases[name] && Claims(l, profiles[i], name))
  }

  /** Enters the labels of one profile; an owner that is the empty string counts as none. */
  method EnterLabels(l: Labels, profile: Profile, before: map<string, string>) returns (aliases: Option<map<string, string>>)
    requires forall name :: name in before ==> before[name] != ""
    requires profile.id != ""
    ensures aliases.None? <==> exists k :: 0 <= k < |profile.labels| && l.normalize(profile.labels[k]) in before && before[l.normalize(profile.labels[k])] != profile.id
    ensures aliases.Some? ==>
      && (forall name :: name in aliases.value <==> name in before || Claims(l, profile, name))
      && (forall name :: name in aliases.value ==> aliases.value[name] == if Claims(l, profile, name) then profile.id else before[name])
  {
    var entered := before;
    for k := 0 to |profile.labels|
      invariant forall m :: 0 <= m < k ==> !(l.normalize(profile.labels[m]) in before && before[l.normalize(profile.labels[m])] != profile.id)
      invariant forall name :: name in entered <==> name in before || exists m :: 0 <= m < k && l.normalize(profile.labels[m]) == name
      invariant forall name :: name in entered ==>
        entered[name] == if exists m :: 0 <= m < k && l.normalize(profile.labels[m]) == name then profile.id else before[name]
    {
      var normalized := l.normalize(profile.labels[k]);
      if normalized in entered && entered[normalized] != "" && entered[normalized] != profile.id {
        return None;
      }
      entered := entered[normalized := profile.id];
    }
    return Some(entered);
  }

  method ValidateProfiles(l: Labels, profiles: seq<Profile>) returns (error: Option<ProfileError>)
    requires forall i :: 0 <= i < |profiles| ==> profiles[i].id != ""
    ensures error == ProfilesError(l, profiles)
    ensures error.None? <==> Acceptable(l, profiles)
    ensures error.None? ==> forall i :: 0 <= i < |profiles| ==> 0.0 <= profiles[i].tolerance <= 50.0 && profiles[i].settingsFit
    ensures error == Some(InvalidProfile) ==>
      exists i :: 0 <= i < |profiles| && !(0.0 <= profiles[i].tolerance <= 50.0 && profiles[i].settingsFit)
  {
    assert forall p :: FieldsFit(p) <==> 0.0 <= p.tolerance <= 50.0 && p.settingsFit;
    BadFieldMeans(l, profiles, 0);
    NoErrorMeans(l, profiles);
    hide ShareLabel, Overlap, FieldsFit, LabelsError, Acceptable;
    if !(1 <= |profiles| <= 100) {
      return Some(WrongCount);
    }
    var distinct := DistinctIds(profiles);
    if !distinct {
      return Some(DuplicateIds);
    }
    error := ValidateLabels(l, profiles);
    if error.None? {
      error := ValidateSizes(l, profiles);
    }
  }

  /** The pass that fills the dictionary of labels. */
  method ValidateLabels(l: Labels, profiles: seq<Profile>) returns (error: Option<ProfileError>)
    requires forall i :: 0 <= i < |profiles| ==> profiles[i].id != ""
    requires Unique(profiles)
    ensures error == LabelsError(l, profiles, 0)
  {
    var aliases: map<string, string> := map[];
    assert Owners(l, profiles, 0, aliases);
    hide ShareLabel, FieldsFit, Owners, Claims;
    for i := 0 to |profiles|
      invariant Owners(l, profiles, i, aliases) && LabelsError(l, profiles, 0) == LabelsError(l, profiles, i)
    {
      if !FieldsFit(profiles[i]) {
        return Some(InvalidProfile);
      }
      OwnersHaveIds(l, profiles, i, aliases);
      var entered := EnterLabels(l, profiles[i], aliases);
      if entered.None? {
        SharedWithOwner(l, profiles, i, aliases);
        return Some(SharedLabel);
      }
      NotShared(l, profiles, i, aliases);
      OwnersGrow(l, profiles, i, aliases, entered.value);
      aliases := entered.value;
    }
    return None;
  }

  lemma OwnersHaveIds(l: Labels, profiles: seq<Profile>, n: nat, aliases: map<string, string>)
    requires Owners(l, profiles, n, aliases) && forall i :: 0 <= i < |profiles| ==> profiles[i].id != ""
    ensures forall name :: name in aliases ==> aliases[name] != ""
  {
  }

  method ValidateSizes(l: Labels, profiles: seq<Profile>) returns (error: Option<ProfileError>)
    ensures error == if SomeOverlap(l, profiles) then Some(OverlappingSizes) else None
  {
    hide Overlap;
    for i := 0 to |profiles|
      invariant forall j, k :: 0 <= j < i && j < k < |profiles| ==> !Overlap(l, profiles[j], profiles[k])
    {
      for j := i + 1 to |profiles|
        invariant forall k :: i < k < j ==> !Overlap(l, profiles[i], profiles[k])
      {
        var overlap := ProfilesOverlap(l, profiles[i], profiles[j]);
        if overlap {
          return Some(OverlappingSizes);
        }
      }
    }
    return None;
  }

  method DistinctIds(profiles: seq<Profile>) returns (distinct: bool)
    ensures distinct <==> Unique(profiles)
  {
    for i := 0 to |profiles|
      invariant forall j, k :: 0 <= j < k < i ==> profiles[j].id != profiles[k].id
    {
      for j := 0 to i
        invariant forall k :: 0 <= k < j ==> profiles[k].id != profiles[i].id
      {
        if profiles[j].id == profiles[i].id {
          return false;
        }
      }
    }
    return true;
  }

  /** A refused label belongs to an earlier profile. */
  lemma SharedWithOwner(l: Labels, profiles: seq<Profile>, i: nat, aliases: map<string, string>)
    requires i < |profiles| && Owners(l, profiles, i, aliases)
    requires exists k :: 0 <= k < |profiles[i].labels| && l.normalize(profiles[i].labels[k]) in aliases
                         && aliases[l.normalize(profiles[i].labels[k])] != profiles[i].id
    ensures exists j :: 0 <= j < i && ShareLabel(l, profiles[j], profiles[i])
  {
    var k :| 0 <= k < |profiles[i].labels| && l.normalize(profiles[i].labels[k]) in aliases && aliases[l.normalize(profiles[i].labels[k])] != profiles[i].id;
    var name := l.normalize(profiles[i].labels[k]);
    var j :| 0 <= j < i && profiles[j].id == aliases[name] && Claims(l, profiles[j], name);
    assert ShareLabel(l, profiles[j], profiles[i]);
  }

  lemma NotShared(l: Labels, profiles: seq<Profile>, i: nat, aliases: map<string, string>)
    requires i < |profiles| && Owners(l, profiles, i, aliases)
    requires forall j :: 0 <= j < i ==> profiles[j].id != profiles[i].id
    requires !exists k :: 0 <= k < |profiles[i].labels| && l.normalize(profiles[i].labels[k]) in aliases
                          && aliases[l.normalize(profiles[i].labels[k])] != profiles[i].id
    ensures forall j :: 0 <= j < i ==> !ShareLabel(l, profiles[j], profiles[i])
  {
  }

  lemma OwnersGrow(l: Labels, profiles: seq<Profile>, i: nat, before: map<string, string>, after: map<string, string>)
    requires i < |profiles| && Owners(l, profiles, i, before)
    requires forall j :: 0 <= j < i ==> !ShareLabel(l, profiles[j], profiles[i])
    requires forall name :: name in after <==> name in before || Claims(l, profiles[i], name)
    requires forall name :: name in after ==> after[name] == if Claims(l, profiles[i], name) then profiles[i].id else before[name]
    ensures Owners(l, profiles, i + 1, after)
  {
    forall j, k | 0 <= j < i + 1 && 0 <= k < |profiles[j].labels|
      ensures var name := l.normalize(profiles[j].labels[k]); name in after && after[name] == profiles[j].id
    {
      var name := l.normalize(profiles[j].labels[k]);
      assert j == i ==> Claims(l, profiles[i], name);
      assert j < i ==> !ShareLabel(l, profiles[j], profiles[i]);
    }
    forall name | name in after
      ensures exists j :: 0 <= j < i + 1 && profiles[j].id == after[name] && Claims(l, profiles[j], name)
    {
      if Claims(l, profiles[i], name) {
        assert profiles[i].id == after[name];
      } else {
        var j :| 0 <= j < i && profiles[j].id == before[name] && Claims(l, profiles[j], name);
      }
    }
  }

  /* ------------------------------------------------------------ matching */

  /** The profiles that pass a test, in order. */
  function Select(profiles: seq<Profile>, test: Profile -> bool): seq<Profile> {
    if profiles == [] then []
    else Select(profiles[..|profiles| - 1], test) + (if test(profiles[|profiles| - 1]) then [profiles[|profiles| - 1]] else [])
  }

  function Only(matches: seq<Profile>): Outcome {
    if |matches| > 1 then Ambiguous else if |matches| == 1 then Found(matches[0]) else NotFound
  }

  function Direct(l: Labels, profiles: seq<Profile>, requested: string): seq<Profile> {
    Select(profiles, p => Claims(l, p, l.normalize(requested)))
  }

  function Sized(l: Labels, profiles: seq<Profile>, size: Size): seq<Profile> {
    Select(profiles, p => Covers(l, p, size))
  }

  function Match(l: Labels, profiles: seq<Profile>, requested: string): Outcome {
    if |Direct(l, profiles, requested)| > 0 then Only(Direct(l, profiles, requested))
    else
      var size := l.parse(requested);
      if size.None? then NotFound else Only(Sized(l, profiles, size.value))
  }

  method MatchPaperProfile(l: Labels, profiles: seq<Profile>, requested: string) returns (outcome: Outcome)
    ensures outcome == Match(l, profiles, requested)
  {
    var normalized := l.normalize(requested);
    var direct: seq<Profile> := [];
    ghost var claims := (p: Profile) => Claims(l, p, l.normalize(requested));
    assert profiles[..|profiles|] == profiles;
    for i := 0 to |profiles|
      invariant direct == Select(profiles[..i], claims)
    {
      assert profiles[..i + 1][..i] == profiles[..i];
      if exists k :: 0 <= k < |profiles[i].labels| && l.normalize(profiles[i].labels[k]) == normalized {
        direct := direct + [profiles[i]];
      }
    }
    if |direct| > 1 {
      return Ambiguous;
    }
    if direct != [] {
      return Found(direct[0]);
    }
    var parsed := l.parse(requested);
    if parsed.None? {
      return NotFound;
    }
    var sized: seq<Profile> := [];
    ghost var covers := (p: Profile) => Covers(l, p, parsed.value);
    for i := 0 to |profiles|
      invariant sized == Select(profiles[..i], covers)
    {
      assert profiles[..i + 1][..i] == profiles[..i];
      var j, found := 0, false;
      while j < |profiles[i].labels| && !found
        invariant 0 <= j <= |profiles[i].labels|
        invariant found <==> exists k :: 0 <= k < j && l.parse(profiles[i].labels[k]).Some?
                                  && Close(l.parse(profiles[i].labels[k]).value, parsed.value, profiles[i].tolerance)
      {
        var size := l.parse(profiles[i].labels[j]);
        if size.Some? && Close(size.value, parsed.value, profiles[i].tolerance) {
          found := true;
        }
        j := j + 1;
      }
      assert found <==> Covers(l, profiles[i], parsed.value);
      if found {
        sized := sized + [profiles[i]];
      }
    }
    if |sized| > 1 {
      return Ambiguous;
    }
    return if sized != [] then Found(sized[0]) else NotFound;
  }

  /* ------------------------------------------------------------ unambiguous matching */

  lemma {:induction false} SelectHas(profiles: seq<Profile>, test: Profile -> bool)
    ensures forall p :: p in Select(profiles, test) <==> p in profiles && test(p)
  {
    if profiles != [] {
      SelectHas(profiles[..|profiles| - 1], test);
      assert profiles == profiles[..|profiles| - 1] + [profiles[|profiles| - 1]];
    }
  }

  /** If no two profiles pass the test together, at most one is selected. */
  lemma {:induction false} SelectsAtMostOne(profiles: seq<Profile>, test: Profile -> bool)
    requires forall i, j :: 0 <= i < j < |profiles| ==> !(test(profiles[i]) && test(profiles[j]))
    ensures |Select(profiles, test)| <= 1
  {
    if profiles != [] {
      var init, last := profiles[..|profiles| - 1], profiles[|profiles| - 1];
      SelectsAtMostOne(init, test);
      SelectHas(init, test);
      if test(last) {
        assert forall i :: 0 <= i < |init| ==> init[i] == profiles[i];
        assert forall p :: p in init ==> !test(p);
        SomeElement(Select(init, test));
      }
    }
  }

  lemma SomeElement(s: seq<Profile>)
    ensures s != [] ==> exists p :: p in s
  {
    if s != [] {
      assert s[0] in s;
    }
  }

  /** The triangle inequality: a size close to both profiles makes them overlap. */
  lemma BothCoverOverlap(l: Labels, p: Profile, q: Profile, size: Size)
    requires Covers(l, p, size) && Covers(l, q, size)
    ensures Overlap(l, p, q)
  {
    var i :| 0 <= i < |p.labels| && l.parse(p.labels[i]).Some? && Close(l.parse(p.labels[i]).value, size, p.tolerance);
    var j :| 0 <= j < |q.labels| && l.parse(q.labels[j]).Some? && Close(l.parse(q.labels[j]).value, size, q.tolerance);
    assert SizesMeet(l, p, q, i, j);
  }

  lemma BothClaimShare(l: Labels, p: Profile, q: Profile, name: string)
    requires Claims(l, p, name) && Claims(l, q, name)
    ensures ShareLabel(l, p, q)
  {
  }

  /** The size lies in the tolerance box of one of the profile's labels. */
  predicate HasSizeNear(l: Labels, p: Profile, size: Size) {
    exists i :: 0 <= i < |p.labels| && l.parse(p.labels[i]).Some? && InBox(l.parse(p.labels[i]).value, size, p.tolerance)
  }

  lemma CoversMeans(l: Labels, p: Profile, size: Size)
    ensures Covers(l, p, size) <==> HasSizeNear(l, p, size)
  {
    assert forall a: Size, b: Size, r: real :: Close(a, b, r) <==> InBox(a, b, r);
    hide Close, InBox;
  }

  /** For accepted profiles every label has one answer, which only depends on which profiles there are. */
  lemma MatchMeaning(l: Labels, profiles: seq<Profile>, requested: string)
    requires Acceptable(l, profiles)
    ensures Match(l, profiles, requested) != Ambiguous
    ensures forall p :: Match(l, profiles, requested) == Found(p) <==>
      && p in profiles
      && (|| Claims(l, p, l.normalize(requested))
          || ((forall q :: q in profiles ==> !Claims(l, q, l.normalize(requested)))
              && l.parse(requested).Some? && HasSizeNear(l, p, l.parse(requested).value)))
  {
    forall p: Profile, size: Size ensures Covers(l, p, size) <==> HasSizeNear(l, p, size) {
      CoversMeans(l, p, size);
    }
    hide Claims, Covers, HasSizeNear, Direct, Sized, Acceptable, Only;
    var direct := Direct(l, profiles, requested);
    DirectIs(l, profiles, requested);
    OnlyMeans(direct);
    if direct == [] {
      assert forall q :: q in profiles ==> !Claims(l, q, l.normalize(requested));
    } else {
      assert direct[0] in direct;
    }
    if l.parse(requested).Some? {
      SizedIs(l, profiles, l.parse(requested).value);
      OnlyMeans(Sized(l, profiles, l.parse(requested).value));
    }
  }

  lemma OnlyMeans(matches: seq<Profile>)
    requires |matches| <= 1
    ensures Only(matches) != Ambiguous && forall p :: Only(matches) == Found(p) <==> p in matches
  {
  }

  lemma DirectIs(l: Labels, profiles: seq<Profile>, requested: string)
    requires Acceptable(l, profiles)
    ensures |Direct(l, profiles, requested)| <= 1
    ensures forall p :: p in Direct(l, profiles, requested) <==> p in profiles && Claims(l, p, l.normalize(requested))
  {
    var claims := (p: Profile) => Claims(l, p, l.normalize(requested));
    forall i, j | 0 <= i < j < |profiles| ensures !(claims(profiles[i]) && claims(profiles[j])) {
      if claims(profiles[i]) && claims(profiles[j]) {
        BothClaimShare(l, profiles[i], profiles[j], l.normalize(requested));
      }
    }
    SelectsAtMostOne(profiles, claims);
    SelectHas(profiles, claims);
    assert Direct(l, profiles, requested) == Select(profiles, claims);
  }

  lemma SizedIs(l: Labels, profiles: seq<Profile>, size: Size)
    requires Acceptable(l, profiles)
    ensures |Sized(l, profiles, size)| <= 1
    ensures forall p :: p in Sized(l, profiles, size) <==> p in profiles && Covers(l, p, size)
  {
    var covers := (p: Profile) => Covers(l, p, size);
    forall i, j | 0 <= i < j < |profiles| ensures !(covers(profiles[i]) && covers(profiles[j])) {
      if covers(profiles[i]) && covers(profiles[j]) {
        BothCoverOverlap(l, profiles[i], profiles[j], size);
      }
    }
    SelectsAtMostOne(profiles, covers);
    SelectHas(profiles, covers);
    assert Sized(l, profiles, size) == Select(profiles, covers);
  }

  /** Every label of a profile is matched to that profile. */
  lemma OwnLabelsMatch(l: Labels, profiles: seq<Profile>, i: nat, k: nat)
    requires Acceptable(l, profiles) && i < |profiles| && k < |profiles[i].labels|
    ensures Match(l, profiles, profiles[i].labels[k]) == Found(profiles[i])
  {
    MatchMeaning(l, profiles, profiles[i].labels[k]);
    assert Claims(l, profiles[i], l.normalize(profiles[i].labels[k]));
  }

  /** The order in which profiles are configured makes no difference. */
  lemma OrderIsIrrelevant(l: Labels, profiles: seq<Profile>, others: seq<Profile>, requested: string)
    requires Acceptable(l, profiles) && Acceptable(l, others) && (forall p :: p in profiles <==> p in others)
    ensures Match(l, profiles, requested) == Match(l, others, requested)
  {
    MatchMeaning(l, profiles, requested);
    MatchMeaning(l, others, requested);
    hide Match, Acceptable, Claims, Covers;
    assert Match(l, profiles, requested).Found? || Match(l, profiles, requested) == NotFound;
    assert Match(l, others, requested).Found? || Match(l, others, requested) == NotFound;
  }

  /* ------------------------------------------------------------ the overlap test is exact */

  /** The share `s : s + t` of the way. */
  function Share(s: real, t: real): (r: real)
    requires s >= 0.0 && t >= 0.0
    ensures 0.0 <= r <= 1.0 && r * (s + t) == s
  {
    if s + t == 0.0 then 0.0
    else
      OverIs(s, s + t);
      OverAtMost(s, s + t, 1.0);
      Scaled(Over(s, s + t), 0.0, s + t);
      Over(s, s + t)
  }

  /** The point at share `r` of the way from `a` to `b`. */
  function Between(a: real, b: real, r: real): real {
    a + (b - a) * r
  }

  lemma BetweenIsClose(a: real, b: real, s: real, t: real, r: real)
    requires s >= 0.0 && t >= 0.0 && Abs(a - b) <= s + t && 0.0 <= r <= 1.0 && r * (s + t) == s
    ensures Abs(a - Between(a, b, r)) <= s && Abs(b - Between(a, b, r)) <= t
  {
    var x := b - a;
    var y := r * x;
    SharesOf(x, y, r, s, t);
    assert Between(a, b, r) == a + y;
  }

  lemma SharesOf(x: real, y: real, r: real, s: real, t: real)
    requires Abs(x) <= s + t && 0.0 <= r <= 1.0 && r * (s + t) == s && y == r * x
    ensures -s <= y <= s && -t <= x - y <= t
  {
    var n, m, q := s + t, -(s + t), 1.0 - r;
    var rx, rn, rm, qx, qn, qm := r * x, r * n, r * m, q * x, q * n, q * m;
    Stretched(r, m, x, rm, rx);
    Stretched(r, x, n, rx, rn);
    Stretched(q, m, x, qm, qx);
    Stretched(q, x, n, qx, qn);
    Complement(r, x, q);
    Complement(r, n, q);
    Negated(r, n, m);
    Negated(q, n, m);
    Combine(x, y, s, t, rx, rn, rm, qx, qn, qm);
  }

  lemma Stretched(k: real, x: real, y: real, kx: real, ky: real)
    requires k >= 0.0 && x <= y && kx == k * x && ky == k * y
    ensures kx <= ky
  {
    MultiplyAtMost(k, x, y);
  }

  lemma Complement(r: real, x: real, q: real)
    requires q == 1.0 - r
    ensures q * x == x - r * x
  {
  }

  lemma Negated(r: real, n: real, m: real)
    requires m == -n
    ensures r * m == -(r * n)
  {
  }

  lemma Combine(x: real, y: real, s: real, t: real, rx: real, rn: real, rm: real, qx: real, qn: real, qm: real)
    requires y == rx && rn == s && rm == -rn && qx == x - rx && qn == s + t - rn && qm == -qn
    requires rm <= rx <= rn && qm <= qx <= qn
    ensures -s <= y <= s && -t <= x - y <= t
  {
  }

  lemma BetweenKeepsOrder(a: real, b: real, c: real, d: real, r: real)
    requires 0.0 <= r <= 1.0 && a <= c && b <= d
    ensures Between(a, b, r) <= Between(c, d, r)
  {
    var q := 1.0 - r;
    MultiplyAtMost(r, b, d);
    MultiplyAtMost(q, a, c);
    WeightedMean(a, b, r, q);
    WeightedMean(c, d, r, q);
    hide Between;
    AddAtMost(Between(a, b, r), q * a, r * b, Between(c, d, r), q * c, r * d);
  }

  lemma AddAtMost(x: real, x0: real, x1: real, y: real, y0: real, y1: real)
    requires x == x0 + x1 && y == y0 + y1 && x0 <= y0 && x1 <= y1
    ensures x <= y
  {
  }

  lemma WeightedMean(a: real, b: real, r: real, q: real)
    requires q == 1.0 - r
    ensures Between(a, b, r) == q * a + r * b
  {
    Complement(r, a, q);
    assert (b - a) * r == r * b - r * a;
  }

  /** Two tolerance boxes pass the overlap test exactly when some paper size lies in both. */
  lemma OverlapIsExact(a: Size, b: Size, s: real, t: real)
    requires s >= 0.0 && t >= 0.0 && a.short <= a.long && b.short <= b.long
    ensures Close(a, b, s + t) <==> exists size: Size :: size.short <= size.long && InBox(a, size, s) && InBox(b, size, t)
  {
    assert forall x: Size, y: Size, r: real :: Close(x, y, r) <==> InBox(x, y, r);
    if Close(a, b, s + t) {
      var r := Share(s, t);
      hide Share, Between;
      BetweenIsClose(a.short, b.short, s, t, r);
      BetweenIsClose(a.long, b.long, s, t, r);
      BetweenKeepsOrder(a.short, b.short, a.long, b.long, r);
      var size := Size(Between(a.short, b.short, r), Between(a.long, b.long, r));
      assert Close(a, size, s) && Close(b, size, t);
    }
  }

  /** Two profiles overlap exactly when some paper size is near a label of each. */
  lemma OverlapMeans(l: Labels, p: Profile, q: Profile)
    requires p.tolerance >= 0.0 && q.tolerance >= 0.0
    requires forall name :: l.parse(name).Some? ==> l.parse(name).value.short <= l.parse(name).value.long
    ensures Overlap(l, p, q) <==> exists size: Size :: size.short <= size.long && HasSizeNear(l, p, size) && HasSizeNear(l, q, size)
  {
    hide Close, InBox;
    if i, j :| 0 <= i < |p.labels| && 0 <= j < |q.labels| && SizesMeet(l, p, q, i, j) {
      OverlapIsExact(l.parse(p.labels[i]).value, l.parse(q.labels[j]).value, p.tolerance, q.tolerance);
      var size: Size :| size.short <= size.long && InBox(l.parse(p.labels[i]).value, size, p.tolerance)
                  && InBox(l.parse(q.labels[j]).value, size, q.tolerance);
      assert HasSizeNear(l, p, size) && HasSizeNear(l, q, size);
    }
    if size: Size :| size.short <= size.long && HasSizeNear(l, p, size) && HasSizeNear(l, q, size) {
      CoversMeans(l, p, size);
      CoversMeans(l, q, size);
      BothCoverOverlap(l, p, q, size);
    }
  }

  lemma {:induction false} SelectsTwo(profiles: seq<Profile>, test: Profile -> bool)
    ensures |Select(profiles, test)| > 1 <==> exists i, j :: 0 <= i < j < |profiles| && test(profiles[i]) && test(profiles[j])
  {
    if profiles != [] {
      var n := |profiles| - 1;
      var init := profiles[..n];
      SelectsTwo(init, test);
      SelectHas(init, test);
      if exists i, j :: 0 <= i < j < n && test(init[i]) && test(init[j]) {
      } else if test(profiles[n]) && |Select(init, test)| > 0 {
        assert Select(init, test)[0] in Select(init, test);
        var i :| 0 <= i < n && init[i] == Select(init, test)[0];
        assert test(profiles[i]);
      } else {
        assert forall i :: 0 <= i < n && test(profiles[i]) ==> init[i] in Select(init, test);
      }
    }
  }

  /** For any profiles: a label is ambiguous exactly when two of them claim it, or none does and two cover its size. */
  lemma AmbiguousMeans(l: Labels, profiles: seq<Profile>, requested: string)
    ensures Match(l, profiles, requested) == Ambiguous <==>
      || (exists i, j :: 0 <= i < j < |profiles| && Claims(l, profiles[i], l.normalize(requested)) && Claims(l, profiles[j], l.normalize(requested)))
      || ((forall p :: p in profiles ==> !Claims(l, p, l.normalize(requested))) && l.parse(requested).Some?
          && exists i, j :: 0 <= i < j < |profiles| && HasSizeNear(l, profiles[i], l.parse(requested).value)
                            && HasSizeNear(l, profiles[j], l.parse(requested).value))
  {
    var claims := p => Claims(l, p, l.normalize(requested));
    SelectsTwo(profiles, claims);
    SelectHas(profiles, claims);
    if l.parse(requested).Some? {
      var size := l.parse(requested).value;
      SelectsTwo(profiles, p => Covers(l, p, size));
      forall p: Profile ensures Covers(l, p, size) <==> HasSizeNear(l, p, size) {
        CoversMeans(l, p, size);
      }
    }
    hide Claims, Covers, HasSizeNear, Select;
    if Direct(l, profiles, requested) != [] {
      assert Direct(l, profiles, requested)[0] in Direct(l, profiles, requested);
    }
  }
}

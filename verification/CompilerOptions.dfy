/** Joining lists of compiler arguments by logical options: a flag together with its value, or one argument. */
module CompilerOptions {

  const PAIRED: set<string> := {
    "-framework", "-l", "-L", "-F", "-I", "-D", "-U", "-include", "-isystem", "-iquote",
    "-isysroot", "--sysroot", "-sysroot", "--target", "-target", "-arch", "-Xlinker", "-Xclang"}

  type Group = seq<string>

  /** A flag that takes a value goes with the next argument, if there is one. */
  function Groups(arguments: seq<string>): seq<Group>
  {
    if arguments == [] then []
    else if arguments[0] in PAIRED && |arguments| > 1 then [arguments[..2]] + Groups(arguments[2..])
    else [arguments[..1]] + Groups(arguments[1..])
  }

  function Flatten(groups: seq<Group>): seq<string>
  {
    if groups == [] then [] else groups[0] + Flatten(groups[1..])
  }

  /** The first occurrences of the groups not seen yet. */
  function Fresh(groups: seq<Group>, seen: set<Group>): seq<Group>
  {
    if groups == [] then []
    else if groups[0] in seen then Fresh(groups[1..], seen)
    else [groups[0]] + Fresh(groups[1..], seen + {groups[0]})
  }

  function Members(groups: seq<Group>): set<Group> { set g | g in groups }

  function Merged(base: seq<string>, additional: seq<string>): seq<string>
  {
    base + Flatten(Fresh(Groups(additional), Members(Groups(base))))
  }

  /** The list ends in a flag whose value is missing. */
  predicate Dangling(arguments: seq<string>)
  {
    && Groups(arguments) != [] && |Groups(arguments)[|Groups(arguments)| - 1]| == 1
    && Groups(arguments)[|Groups(arguments)| - 1][0] in PAIRED
  }

  /** One more group moves from what is still to be grouped to what has been. */
  lemma GroupAt(arguments: seq<string>, index: nat, done: seq<Group>)
    requires index < |arguments|
    ensures done + Groups(arguments[index..]) ==
              if arguments[index] in PAIRED && index + 1 < |arguments|
              then done + [[arguments[index], arguments[index + 1]]] + Groups(arguments[index + 2..])
              else done + [[arguments[index]]] + Groups(arguments[index + 1..])
  {
    var rest := arguments[index..];
    if arguments[index] in PAIRED && index + 1 < |arguments| {
      assert rest[..2] == [arguments[index], arguments[index + 1]] && rest[2..] == arguments[index + 2..];
    } else {
      assert rest[..1] == [arguments[index]] && rest[1..] == arguments[index + 1..];
    }
  }

  method FindGroups(arguments: seq<string>) returns (result: seq<Group>)
    ensures result == Groups(arguments)
  {
    result := [];
    var index := 0;
    while index < |arguments|
      invariant index <= |arguments|
      invariant result + Groups(arguments[index..]) == Groups(arguments)
    {
      var argument := arguments[index];
      GroupAt(arguments, index, result);
      if argument in PAIRED && index + 1 < |arguments| {
        result := result + [[argument, arguments[index + 1]]];
        index := index + 2;
      } else {
        result := result + [[argument]];
        index := index + 1;
      }
    }
  }

  method Merge(base: seq<string>, additional: seq<string>) returns (result: seq<string>)
    ensures result == Merged(base, additional)
  {
    result := base;
    var own := FindGroups(base);
    var seen := Members(own);
    var groups := FindGroups(additional);
    assert groups[0..] == groups;
    for i := 0 to |groups|
      invariant result + Flatten(Fresh(groups[i..], seen)) == Merged(base, additional)
    {
      var group := groups[i];
      assert groups[i..][0] == group && groups[i..][1..] == groups[i + 1..];
      if group !in seen {
        var rest := Flatten(Fresh(groups[i + 1..], seen + {group}));
        assert result + (group + rest) == result + group + rest;
        seen := seen + {group};
        result := result + group;
      }
    }
  }

  method Distinct(arguments: seq<string>) returns (result: seq<string>)
    ensures result == Merged([], arguments)
  {
    result := Merge([], arguments);
  }

  /** Groups as they come out of a list: only the last one can be a flag without its value. */
  ghost predicate WellGrouped(groups: seq<Group>)
  {
    forall i | 0 <= i < |groups| :: IsGroup(groups[i], i + 1 == |groups|)
  }

  predicate IsGroup(g: Group, last: bool)
  {
    (|g| == 2 && g[0] in PAIRED) || (|g| == 1 && (last || g[0] !in PAIRED))
  }

  lemma {:induction false} GroupsShape(arguments: seq<string>)
    ensures WellGrouped(Groups(arguments)) && Flatten(Groups(arguments)) == arguments
  {
    if arguments != [] {
      var n := if arguments[0] in PAIRED && |arguments| > 1 then 2 else 1;
      GroupsShape(arguments[n..]);
      assert arguments == arguments[..n] + arguments[n..];
      assert Groups(arguments)[1..] == Groups(arguments[n..]);
      forall i | 0 <= i < |Groups(arguments)| ensures IsGroup(Groups(arguments)[i], i + 1 == |Groups(arguments)|) {
        if i > 0 { assert Groups(arguments)[i] == Groups(arguments[n..])[i - 1]; }
      }
    }
  }

  /** Text put together from groups falls into the same groups again. */
  lemma {:induction false} GroupsOfFlat(groups: seq<Group>)
    requires WellGrouped(groups)
    ensures Groups(Flatten(groups)) == groups
  {
    if groups != [] {
      var g, rest := groups[0], Flatten(groups[1..]);
      assert IsGroup(g, 1 == |groups|);
      assert forall i | 0 <= i < |groups[1..]| :: groups[1..][i] == groups[i + 1];
      GroupsOfFlat(groups[1..]);
      assert (g + rest)[..|g|] == g && (g + rest)[|g|..] == rest;
      if |groups| == 1 { assert rest == []; }
    }
  }

  /** What follows a list without a dangling flag is grouped by itself. */
  lemma {:induction false} GroupsAppend(base: seq<string>, more: seq<string>)
    requires !Dangling(base)
    ensures Groups(base + more) == Groups(base) + Groups(more)
    decreases |base|
  {
    if base == [] {
      assert base + more == more;
    } else {
      var n := if base[0] in PAIRED && |base| > 1 then 2 else 1;
      var rest := base[n..];
      assert Groups(base) == [base[..n]] + Groups(rest);
      if rest == [] {
        assert Groups(base) == [base[..n]];
      } else {
        assert Groups(base)[|Groups(base)| - 1] == Groups(rest)[|Groups(rest)| - 1];
      }
      GroupsAppend(rest, more);
      assert (base + more)[..n] == base[..n] && (base + more)[n..] == rest + more;
    }
  }

  lemma {:induction false} FreshMembers(groups: seq<Group>, seen: set<Group>)
    ensures forall g :: g in Fresh(groups, seen) <==> g in groups && g !in seen
    ensures forall i, j | 0 <= i < j < |Fresh(groups, seen)| :: Fresh(groups, seen)[i] != Fresh(groups, seen)[j]
  {
    if groups != [] {
      FreshMembers(groups[1..], seen);
      FreshMembers(groups[1..], seen + {groups[0]});
    }
  }

  lemma {:induction false} NothingFresh(groups: seq<Group>, seen: set<Group>)
    requires forall g | g in groups :: g in seen
    ensures Fresh(groups, seen) == []
  {
    if groups != [] { NothingFresh(groups[1..], seen); }
  }

  /** Dropping groups leaves the last one last. */
  lemma {:induction false} FreshShape(groups: seq<Group>, seen: set<Group>)
    requires WellGrouped(groups)
    ensures WellGrouped(Fresh(groups, seen))
  {
    if groups != [] {
      var rest := groups[1..];
      assert forall i | 0 <= i < |rest| :: rest[i] == groups[i + 1];
      assert IsGroup(groups[0], 1 == |groups|);
      FreshShape(rest, seen);
      FreshShape(rest, seen + {groups[0]});
      var tail := Fresh(rest, seen + {groups[0]});
      if rest == [] { assert tail == []; }
      forall i | 0 <= i < |[groups[0]] + tail| ensures IsGroup(([groups[0]] + tail)[i], i + 1 == |[groups[0]] + tail|) {
        if i > 0 { assert IsGroup(tail[i - 1], i == |tail|); }
      }
    }
  }

  /** Behind a base without a dangling flag, each new option stands once, in the order of its first occurrence. */
  lemma MergedGroups(base: seq<string>, additional: seq<string>)
    requires !Dangling(base)
    ensures base <= Merged(base, additional)
    ensures Groups(Merged(base, additional)) == Groups(base) + Fresh(Groups(additional), Members(Groups(base)))
    ensures forall g | g in Groups(additional) :: g in Groups(Merged(base, additional))
  {
    var added := Fresh(Groups(additional), Members(Groups(base)));
    GroupsShape(additional);
    FreshShape(Groups(additional), Members(Groups(base)));
    FreshMembers(Groups(additional), Members(Groups(base)));
    GroupsAppend(base, Flatten(added));
    GroupsOfFlat(added);
  }

  /** Behind a base without a dangling flag, merging the same arguments again changes nothing. */
  lemma MergeAgain(base: seq<string>, additional: seq<string>)
    requires !Dangling(base)
    ensures Merged(Merged(base, additional), additional) == Merged(base, additional)
  {
    MergedGroups(base, additional);
    NothingFresh(Groups(additional), Members(Groups(Merged(base, additional))));
  }

  /** Dropping repeated options twice drops no more than dropping them once. */
  lemma DistinctIsIdempotent(arguments: seq<string>)
    ensures Merged([], Merged([], arguments)) == Merged([], arguments)
  {
    var added := Fresh(Groups(arguments), {});
    assert Members(Groups([])) == {};
    assert Merged([], arguments) == Flatten(added);
    FreshMembers(Groups(arguments), {});
    GroupsShape(arguments);
    FreshShape(Groups(arguments), {});
    GroupsOfFlat(added);
    FreshOfFresh(added, {});
    assert Merged([], Flatten(added)) == Flatten(added);
  }

  lemma {:induction false} FreshOfFresh(groups: seq<Group>, seen: set<Group>)
    requires forall i, j | 0 <= i < j < |groups| :: groups[i] != groups[j]
    requires forall g | g in groups :: g !in seen
    ensures Fresh(groups, seen) == groups
  {
    if groups != [] { FreshOfFresh(groups[1..], seen + {groups[0]}); }
  }

  /** What stands before a dangling flag. */
  lemma DanglingFront(base: seq<string>) returns (front: seq<string>, flag: Group)
    requires Dangling(base)
    ensures base == front + flag && !Dangling(front) && Groups(base) == Groups(front) + [flag]
    ensures |flag| == 1 && flag[0] in PAIRED
  {
    var own := Groups(base);
    var before := own[..|own| - 1];
    flag := own[|own| - 1];
    front := Flatten(before);
    GroupsShape(base);
    FlattenAppend(before, [flag]);
    assert own == before + [flag] && Flatten([flag]) == flag;
    forall i | 0 <= i < |before| ensures IsGroup(before[i], false) { assert IsGroup(own[i], i + 1 == |own|); }
    GroupsOfFlat(before);
    if before != [] { assert IsGroup(before[|before| - 1], false); }
  }

  /** A flag whose value is a flag itself. */
  predicate FlagPair(g: Group)
  {
    |g| == 2 && g[0] in PAIRED && g[1] in PAIRED
  }

  predicate AllFlagPairs(groups: seq<Group>)
  {
    forall i | 0 <= i < |groups| :: FlagPair(groups[i])
  }

  ghost predicate AllDifferent(groups: seq<Group>)
  {
    forall i, j | 0 <= i < j < |groups| :: groups[i] != groups[j]
  }

  /** The options regrouped behind a dangling flag: a flag taken for a value pushes its own value into the next pair. */
  function Behind(flag: string, added: seq<Group>): seq<Group>
    decreases |added|
  {
    if added == [] then [[flag]]
    else if |added[0]| == 1 then [[flag] + added[0]] + added[1..]
    else if |added[0]| != 2 then []
    else if added[0][1] in PAIRED then [[flag, added[0][0]]] + Behind(added[0][1], added[1..])
    else [[flag, added[0][0]], [added[0][1]]] + added[1..]
  }

  lemma WellGroupedTail(groups: seq<Group>)
    requires WellGrouped(groups) && groups != []
    ensures WellGrouped(groups[1..]) && IsGroup(groups[0], 1 == |groups|)
  {
    assert forall i | 0 <= i < |groups[1..]| :: groups[1..][i] == groups[i + 1];
  }

  /** The first two arguments of a line that starts with a paired flag make a group. */
  lemma PairFirst(flag: string, value: string, more: seq<string>)
    requires flag in PAIRED
    ensures Groups([flag] + ([value] + more)) == [[flag, value]] + Groups(more)
  {
    var line := [flag] + ([value] + more);
    assert line[..2] == [flag, value] && line[2..] == more;
  }

  lemma SingleFirst(argument: string, more: seq<string>)
    requires argument !in PAIRED
    ensures Groups([argument] + more) == [[argument]] + Groups(more)
  {
    assert ([argument] + more)[..1] == [argument] && ([argument] + more)[1..] == more;
  }

  lemma {:induction false} BehindIsRegrouped(flag: string, added: seq<Group>)
    requires flag in PAIRED && WellGrouped(added)
    ensures Groups([flag] + Flatten(added)) == Behind(flag, added)
    decreases |added|
  {
    if added == [] {
      assert [flag][..1] == [flag] && [flag][1..] == [] && [flag] + [] == [flag];
    } else {
      var g, rest := added[0], Flatten(added[1..]);
      WellGroupedTail(added);
      GroupsOfFlat(added[1..]);
      if |g| == 1 {
        assert Flatten(added) == g + rest && g == [g[0]] && [flag] + g == [flag, g[0]];
        PairFirst(flag, g[0], rest);
      } else {
        if g[1] in PAIRED { BehindIsRegrouped(g[1], added[1..]); } else { SingleFirst(g[1], rest); }
        PairBehind(flag, g, rest);
        assert Flatten(added) == g + rest;
      }
    }
  }

  lemma PairBehind(flag: string, g: Group, rest: seq<string>)
    requires flag in PAIRED && |g| == 2
    ensures Groups([flag] + (g + rest)) == [[flag, g[0]]] + Groups([g[1]] + rest)
  {
    assert g + rest == [g[0]] + ([g[1]] + rest);
    PairFirst(flag, g[0], [g[1]] + rest);
  }

  /** The first added option that is not a flag with a flag for its value. */
  function FirstPlain(added: seq<Group>): (k: nat)
    ensures k <= |added| && (k < |added| ==> !FlagPair(added[k]))
    ensures forall i | 0 <= i < k :: FlagPair(added[i])
  {
    if added == [] || !FlagPair(added[0]) then 0 else 1 + FirstPlain(added[1..])
  }

  /** That option is taken apart: whatever stands behind the flag is a later option or not of its kind. */
  lemma {:induction false} PlainIsTakenApart(flag: string, added: seq<Group>, r: Group)
    requires WellGrouped(added) && FirstPlain(added) < |added| && r in Behind(flag, added)
    ensures var k := FirstPlain(added);
            || r in added[k + 1..]
            || (|r| == 2 && (|added[k]| == 1 || r[1] in PAIRED))
            || (|r| == 1 && |added[k]| == 2)
    decreases |added|
  {
    WellGroupedTail(added);
    if FlagPair(added[0]) {
      assert added[1..][FirstPlain(added[1..]) + 1..] == added[FirstPlain(added) + 1..];
      if r != [flag, added[0][0]] { PlainIsTakenApart(added[0][1], added[1..], r); }
    }
  }

  /** The pairs that flags with flags for values fall into behind a dangling flag. */
  function Shifted(flag: string, added: seq<Group>): (r: seq<Group>)
    requires AllFlagPairs(added)
    ensures |r| == |added|
    decreases |added|
  {
    if added == [] then [] else [[flag, added[0][0]]] + Shifted(added[0][1], added[1..])
  }

  function LastValue(flag: string, added: seq<Group>): string
    requires AllFlagPairs(added)
    decreases |added|
  {
    if added == [] then flag else LastValue(added[0][1], added[1..])
  }

  lemma {:induction false} BehindIsShifted(flag: string, added: seq<Group>)
    requires AllFlagPairs(added)
    ensures Behind(flag, added) == Shifted(flag, added) + [[LastValue(flag, added)]]
    decreases |added|
  {
    if added != [] { BehindIsShifted(added[0][1], added[1..]); }
  }

  /** The added options, pushed on by one place, are the added options again. */
  predicate TakesItself(flag: string, added: seq<Group>)
  {
    AllFlagPairs(added) && Members(added) == Members(Shifted(flag, added))
  }

  /** An option that is no flag with a flag for its value does not survive behind the flag. */
  lemma PlainIsLost(flag: string, added: seq<Group>)
    requires WellGrouped(added) && AllDifferent(added) && FirstPlain(added) < |added|
    ensures added[FirstPlain(added)] !in Behind(flag, added)
  {
    var k := FirstPlain(added);
    assert IsGroup(added[k], k + 1 == |added|);
    if added[k] in Behind(flag, added) { PlainIsTakenApart(flag, added, added[k]); }
  }

  /** Every option added behind a dangling flag survives exactly when the options take themselves. */
  lemma SurvivesIff(flag: string, added: seq<Group>)
    requires WellGrouped(added) && AllDifferent(added)
    ensures (forall g | g in added :: g in Behind(flag, added)) <==> TakesItself(flag, added)
  {
    if FirstPlain(added) < |added| {
      PlainIsLost(flag, added);
    } else {
      BehindIsShifted(flag, added);
      FlagPairsSurvive(added, Shifted(flag, added), [LastValue(flag, added)]);
    }
  }

  lemma FlagPairsSurvive(added: seq<Group>, shifted: seq<Group>, last: Group)
    requires AllFlagPairs(added) && AllDifferent(added) && |shifted| == |added| && |last| == 1
    ensures (forall g | g in added :: g in shifted + [last]) <==> Members(added) == Members(shifted)
  {
    DifferentMembers(added);
    FewMembers(shifted);
    assert forall g | g in added :: |g| == 2;
    if forall g | g in added :: g in shifted + [last] {
      SubsetOfSize(Members(added), Members(shifted));
    }
    if Members(added) == Members(shifted) {
      forall g | g in added ensures g in shifted { assert g in Members(added); }
    }
  }

  lemma {:induction false} DifferentMembers(groups: seq<Group>)
    requires AllDifferent(groups)
    ensures |Members(groups)| == |groups|
  {
    if groups == [] {
      assert Members(groups) == {};
    } else {
      DifferentMembers(groups[1..]);
      assert Members(groups) == {groups[0]} + Members(groups[1..]);
      OnlyFirst(groups);
    }
  }

  lemma {:induction false} FewMembers(groups: seq<Group>)
    ensures |Members(groups)| <= |groups|
  {
    if groups == [] {
      assert Members(groups) == {};
    } else {
      FewMembers(groups[1..]);
      assert Members(groups) == {groups[0]} + Members(groups[1..]);
    }
  }

  lemma SubsetOfSize(a: set<Group>, b: set<Group>)
    requires a <= b && |b| <= |a|
    ensures a == b
  {
    assert b == a + (b - a);
  }

  // When options take themselves, the flag dangles again behind them.

  predicate AllPairs(groups: seq<Group>)
  {
    forall i | 0 <= i < |groups| :: |groups[i]| == 2
  }

  /** The first, or the second, parts of pairs. */
  function Parts(groups: seq<Group>, k: nat): multiset<string>
    requires AllPairs(groups) && k < 2
  {
    if groups == [] then multiset{} else multiset{groups[0][k]} + Parts(groups[1..], k)
  }

  lemma {:induction false} ShiftedParts(flag: string, added: seq<Group>)
    requires AllFlagPairs(added)
    ensures AllPairs(added) && AllPairs(Shifted(flag, added))
    ensures Parts(Shifted(flag, added), 1) == Parts(added, 0)
    ensures Parts(Shifted(flag, added), 0) + multiset{LastValue(flag, added)} == multiset{flag} + Parts(added, 1)
    decreases |added|
  {
    if added != [] {
      ShiftedParts(added[0][1], added[1..]);
      assert Shifted(flag, added)[1..] == Shifted(added[0][1], added[1..]);
    }
  }

  lemma {:induction false} PartsAppend(a: seq<Group>, b: seq<Group>, k: nat)
    requires AllPairs(a) && AllPairs(b) && k < 2
    ensures AllPairs(a + b) && Parts(a + b, k) == Parts(a, k) + Parts(b, k)
  {
    if a == [] {
      assert a + b == b;
    } else {
      PartsAppend(a[1..], b, k);
      assert (a + b)[1..] == a[1..] + b;
    }
  }

  lemma PartsWithout(groups: seq<Group>, i: nat, k: nat)
    requires i < |groups| && AllPairs(groups) && k < 2
    ensures AllPairs(groups[..i] + groups[i + 1..])
    ensures Parts(groups, k) == multiset{groups[i][k]} + Parts(groups[..i] + groups[i + 1..], k)
  {
    var front, back := groups[..i], groups[i..];
    PartsAppend(front, back[1..], k);
    PartsAppend(front, back, k);
    assert groups == front + back && back[1..] == groups[i + 1..];
  }

  lemma MultisetWithout(groups: seq<Group>, i: nat)
    requires i < |groups|
    ensures multiset(groups[..i] + groups[i + 1..]) == multiset(groups) - multiset{groups[i]}
  {
    assert groups == groups[..i] + [groups[i]] + groups[i + 1..];
  }

  lemma SameRests(a: seq<Group>, b: seq<Group>, i: nat)
    requires multiset(a) == multiset(b) && a != [] && i < |b| && b[i] == a[0]
    ensures multiset(a[1..]) == multiset(b[..i] + b[i + 1..])
  {
    MultisetWithout(a, 0);
    MultisetWithout(b, i);
    assert a[..0] + a[1..] == a[1..];
  }

  /** The same pairs have the same parts. */
  lemma {:induction false} SameParts(a: seq<Group>, b: seq<Group>, k: nat)
    requires AllPairs(a) && AllPairs(b) && multiset(a) == multiset(b) && k < 2
    ensures Parts(a, k) == Parts(b, k)
    decreases |a|
  {
    assert |multiset(a)| == |a| && |multiset(b)| == |b|;
    if a != [] {
      assert a[0] in multiset(b);
      var i :| 0 <= i < |b| && b[i] == a[0];
      SameRests(a, b, i);
      PartsWithout(b, i, k);
      SameParts(a[1..], b[..i] + b[i + 1..], k);
    }
  }

  lemma {:induction false} OnceEach(groups: seq<Group>)
    requires |Members(groups)| == |groups|
    ensures forall g :: multiset(groups)[g] == if g in Members(groups) then 1 else 0
  {
    if groups != [] {
      FewMembers(groups[1..]);
      assert Members(groups) == {groups[0]} + Members(groups[1..]);
      OnceEach(groups[1..]);
      assert groups == [groups[0]] + groups[1..];
    }
  }

  lemma SameMembers(a: seq<Group>, b: seq<Group>)
    requires Members(a) == Members(b) && |Members(a)| == |a| == |b|
    ensures multiset(a) == multiset(b)
  {
    OnceEach(a);
    OnceEach(b);
  }

  lemma FlagDanglesAgain(flag: string, added: seq<Group>)
    requires AllDifferent(added) && TakesItself(flag, added)
    ensures LastValue(flag, added) == flag
  {
    var shifted := Shifted(flag, added);
    ShiftedParts(flag, added);
    DifferentMembers(added);
    SameMembers(added, shifted);
    SameParts(added, shifted, 0);
    SameParts(added, shifted, 1);
    Cancel(LastValue(flag, added), flag, Parts(added, 1));
  }

  lemma Cancel(x: string, y: string, m: multiset<string>)
    requires m + multiset{x} == multiset{y} + m
    ensures x == y
  {
    assert (m + multiset{x})[x] == m[x] + 1;
  }

  /** The options of `additional` that `base` does not have yet. */
  function Added(base: seq<string>, additional: seq<string>): seq<Group>
  {
    Fresh(Groups(additional), Members(Groups(base)))
  }

  /** Nothing dangles, nothing is added, or what is added behind the dangling flag takes itself. */
  predicate MergesOnce(base: seq<string>, additional: seq<string>)
  {
    !Dangling(base) || Added(base, additional) == [] || TakesItself(base[|base| - 1], Added(base, additional))
  }

  /** The groups of a merge with a dangling base. */
  lemma DanglingMerge(base: seq<string>, additional: seq<string>) returns (front: seq<string>, flag: string)
    requires Dangling(base)
    ensures flag in PAIRED && flag == base[|base| - 1] && Groups(base) == Groups(front) + [[flag]]
    ensures Groups(Merged(base, additional)) == Groups(front) + Behind(flag, Added(base, additional))
    ensures WellGrouped(Added(base, additional)) && AllDifferent(Added(base, additional))
  {
    var last;
    front, last := DanglingFront(base);
    flag := last[0];
    var added := Added(base, additional);
    GroupsShape(additional);
    FreshShape(Groups(additional), Members(Groups(base)));
    FreshMembers(Groups(additional), Members(Groups(base)));
    assert last == [flag];
    AssocArguments(front, last, Flatten(added));
    GroupsAppend(front, [flag] + Flatten(added));
    BehindIsRegrouped(flag, added);
  }

  /** A second merge adds nothing exactly when the first one kept every option of `additional`. */
  lemma AddsNothingIff(once: seq<string>, additional: seq<string>)
    ensures Merged(once, additional) == once <==> forall g | g in Groups(additional) :: g in Groups(once)
  {
    if forall g | g in Groups(additional) :: g in Groups(once) {
      NothingFresh(Groups(additional), Members(Groups(once)));
      assert once + [] == once;
    } else {
      var g :| g in Groups(additional) && g !in Groups(once);
      GroupsShape(additional);
      var i :| 0 <= i < |Groups(additional)| && Groups(additional)[i] == g;
      assert IsGroup(g, i + 1 == |Groups(additional)|);
      AddsAgain(once, additional, g);
    }
  }

  /** Behind a dangling flag, a merge keeps every option exactly when what it adds takes itself. */
  lemma DanglingKeepsIff(base: seq<string>, additional: seq<string>)
    requires Dangling(base) && Added(base, additional) != []
    ensures (forall g | g in Groups(additional) :: g in Groups(Merged(base, additional)))
            <==> TakesItself(base[|base| - 1], Added(base, additional))
  {
    var added := Added(base, additional);
    var front, flag := DanglingMerge(base, additional);
    SurvivesIff(flag, added);
    FreshMembers(Groups(additional), Members(Groups(base)));
    KeepsOldAndNew(Groups(additional), Groups(front), [flag], added, Behind(flag, added));
    if TakesItself(flag, added) {
      FlagDanglesAgain(flag, added);
      BehindIsShifted(flag, added);
    }
  }

  lemma KeepsOldAndNew(all: seq<Group>, front: seq<Group>, flag: Group, added: seq<Group>, behind: seq<Group>)
    requires forall g :: g in added <==> g in all && g !in front + [flag]
    ensures (forall g | g in all :: g in front + behind) ==> forall g | g in added :: g in behind
    ensures (forall g | g in added :: g in behind) && flag in behind ==> forall g | g in all :: g in front + behind
  {
  }

  /**
     Merging the same arguments again changes nothing exactly when the base does not end in a dangling flag, or
     nothing is added, or the added options are flags with flags for values that take themselves.
   */
  lemma MergeAgainIff(base: seq<string>, additional: seq<string>)
    ensures Merged(Merged(base, additional), additional) == Merged(base, additional) <==> MergesOnce(base, additional)
  {
    if !Dangling(base) {
      MergeAgain(base, additional);
    } else if Added(base, additional) == [] {
      assert base + [] == base;
      assert Merged(base, additional) == base;
    } else {
      AddsNothingIff(Merged(base, additional), additional);
      DanglingKeepsIff(base, additional);
    }
  }

  /** A new single argument, or option with a plain value, is taken apart by a dangling flag and added once more. */
  lemma DanglingTakesArgument(base: seq<string>, additional: seq<string>)
    requires Dangling(base) && !AllFlagPairs(Added(base, additional)) && Added(base, additional) != []
    ensures Merged(Merged(base, additional), additional) != Merged(base, additional)
  {
    MergeAgainIff(base, additional);
  }

  lemma AssocArguments(a: seq<string>, b: seq<string>, c: seq<string>)
    ensures a + b + c == a + (b + c)
  {
  }

  lemma OnlyFirst(added: seq<Group>)
    requires added != [] && forall i, j | 0 <= i < j < |added| :: added[i] != added[j]
    ensures added[0] !in added[1..]
  {
  }

  lemma AddsAgain(once: seq<string>, additional: seq<string>, g: Group)
    requires g in Groups(additional) && g !in Groups(once) && |g| > 0
    ensures Merged(once, additional) != once
  {
    var more := Fresh(Groups(additional), Members(Groups(once)));
    FreshMembers(Groups(additional), Members(Groups(once)));
    FlattenLength(more, g);
    assert |Merged(once, additional)| == |once| + |Flatten(more)|;
  }

  lemma {:induction false} FlattenAppend(a: seq<Group>, b: seq<Group>)
    ensures Flatten(a + b) == Flatten(a) + Flatten(b)
  {
    if a == [] {
      assert a + b == b;
    } else {
      FlattenAppend(a[1..], b);
      assert (a + b)[1..] == a[1..] + b;
    }
  }

  lemma {:induction false} FlattenLength(groups: seq<Group>, g: Group)
    requires g in groups
    ensures |Flatten(groups)| >= |g|
  {
    if g != groups[0] { FlattenLength(groups[1..], g); }
  }

  lemma DanglingExample()
    ensures Dangling(["-I"]) && Merged(Merged(["-I"], ["x.c"]), ["x.c"]) != Merged(["-I"], ["x.c"])
  {
    var flag, file := ["-I"], ["x.c"];
    OneGroup(flag);
    OneGroup(file);
    FreshOfFresh([file], {flag});
    assert Members([flag]) == {flag} && file in Added(flag, file) && !FlagPair(file);
    DanglingTakesArgument(flag, file);
  }

  lemma OneGroup(g: Group)
    requires |g| == 1 || (|g| == 2 && g[0] in PAIRED)
    ensures Groups(g) == [g]
  {
    assert g[..|g|] == g && g[|g|..] == [];
  }

  /** A dangling flag and a new option that is the same flag twice: the option takes itself. */
  lemma DanglingEscapes()
    ensures Dangling(["-I"]) && Added(["-I"], ["-I", "-I"]) == [["-I", "-I"]]
    ensures Merged(Merged(["-I"], ["-I", "-I"]), ["-I", "-I"]) == Merged(["-I"], ["-I", "-I"])
  {
    var flag, pair := ["-I"], ["-I", "-I"];
    OneGroup(flag);
    OneGroup(pair);
    assert |flag| != |pair| && Members([flag]) == {flag};
    FreshOfFresh([pair], {flag});
    assert [pair][1..] == [];
    assert Shifted("-I", [pair]) == [pair];
    MergeAgainIff(flag, pair);
  }
}

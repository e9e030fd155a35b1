/**
 * components/garden-view.tsx: the list operations the garden view applies to
 * its secrets, written as pure functions over the list the React state holds.
 * The state setters, the clipboard and the server actions around them are not
 * part of this model.
 */
module Garden {
  import opened Wrappers
  import Utils

  /** One row of the `passwords` list (components/garden-view.tsx:13-25); `None` is `null`. */
  datatype Password = Password(
    id: int,
    title: string,
    username: string,
    passwordEncrypted: string,
    website: Option<string>,
    category: Option<string>,
    strength: int,
    plantType: string,
    growthStage: int,
    favorite: bool,
    updatedAt: string)

  // ---------------------------------------------------------------------
  // Search filter (components/garden-view.tsx:42-55)
  // ---------------------------------------------------------------------

  /** `toLowerCase` on one character, over the ASCII letters. */
  function LowerChar(c: char): char
  {
    if 'A' <= c <= 'Z' then (c as int + 32) as char else c
  }

  function ToLower(s: string): (r: string)
    ensures |r| == |s|
    ensures forall i :: 0 <= i < |s| ==> r[i] == LowerChar(s[i])
  {
    if s == [] then [] else [LowerChar(s[0])] + ToLower(s[1..])
  }

  /** t occurs in s starting at position i. */
  predicate OccursAt(s: string, t: string, i: int)
  {
    0 <= i && i + |t| <= |s| && s[i..i + |t|] == t
  }

  /** `s.includes(t)`: t occurs in s at some position; every string includes "". */
  predicate Includes(s: string, t: string): (found: bool)
    ensures found ==> |t| <= |s|
    ensures t == [] ==> found
  {
    assert t == [] ==> OccursAt(s, t, 0);
    exists i | 0 <= i <= |s| - |t| :: OccursAt(s, t, i)
  }

  /** A nullable column takes part in the search only when it is a non-empty string (JavaScript truthiness). */
  predicate FieldIncludes(field: Option<string>, term: string)
  {
    field.Some? && field.value != [] && Includes(ToLower(field.value), term)
  }

  /** The predicate of the `filter` call (components/garden-view.tsx:45-49); the empty term matches every row. */
  predicate Matches(p: Password, searchTerm: string): (found: bool)
    ensures searchTerm == [] ==> found
  {
    var term := ToLower(searchTerm);
    || Includes(ToLower(p.title), term)
    || Includes(ToLower(p.username), term)
    || FieldIncludes(p.website, term)
    || FieldIncludes(p.category, term)
  }

  /** `passwords.filter(...)`: every copy of a matching row is kept, every copy of another row dropped. */
  function KeepMatching(passwords: seq<Password>, searchTerm: string): (kept: seq<Password>)
    ensures |kept| <= |passwords|
    ensures forall p :: p in kept <==> p in passwords && Matches(p, searchTerm)
    ensures forall p :: multiset(kept)[p] == if Matches(p, searchTerm) then multiset(passwords)[p] else 0
  {
    if passwords == [] then []
    else
      assert passwords == [passwords[0]] + passwords[1..];
      (if Matches(passwords[0], searchTerm) then [passwords[0]] else [])
      + KeepMatching(passwords[1..], searchTerm)
  }

  /** The list shown for a search term: the whole list for an empty term, the matching entries otherwise. */
  function FilterPasswords(passwords: seq<Password>, searchTerm: string): (filtered: seq<Password>)
    ensures searchTerm == [] ==> filtered == passwords
    ensures searchTerm != [] ==> forall p :: p in filtered <==> p in passwords && Matches(p, searchTerm)
  {
    if searchTerm != [] then KeepMatching(passwords, searchTerm) else passwords
  }

  /** `a` is `b` with some entries left out, the rest in their order. */
  predicate SubsequenceOf(a: seq<Password>, b: seq<Password>)
    decreases |b|
  {
    if a == [] then true
    else if b == [] then false
    else (a[0] == b[0] && SubsequenceOf(a[1..], b[1..])) || SubsequenceOf(a, b[1..])
  }

  /** The filter keeps the entries it keeps in their order. */
  lemma {:induction false} KeepMatchingSubsequence(passwords: seq<Password>, searchTerm: string)
    ensures SubsequenceOf(KeepMatching(passwords, searchTerm), passwords)
  {
    if passwords != [] {
      var kept := KeepMatching(passwords, searchTerm);
      var rest := KeepMatching(passwords[1..], searchTerm);
      KeepMatchingSubsequence(passwords[1..], searchTerm);
      if Matches(passwords[0], searchTerm) {
        assert kept[0] == passwords[0] && kept[1..] == rest;
      } else {
        assert kept == rest;
        if kept != [] {
          assert SubsequenceOf(kept, passwords[1..]);
        }
      }
    }
  }

  lemma FilterSubsequence(passwords: seq<Password>, searchTerm: string)
    ensures SubsequenceOf(FilterPasswords(passwords, searchTerm), passwords)
  {
    if searchTerm == [] {
      SubsequenceOfSelf(passwords);
    } else {
      KeepMatchingSubsequence(passwords, searchTerm);
    }
  }

  lemma {:induction false} SubsequenceOfSelf(a: seq<Password>)
    ensures SubsequenceOf(a, a)
  {
    if a != [] {
      SubsequenceOfSelf(a[1..]);
    }
  }

  /** Every string includes the empty string, so the `if (searchTerm)` test changes nothing:
      filtering by "" would keep every entry too. */
  lemma {:induction false} EmptyTermMatchesAll(passwords: seq<Password>)
    ensures KeepMatching(passwords, []) == passwords
  {
    if passwords != [] {
      var p := passwords[0];
      assert OccursAt(ToLower(p.title), ToLower([]), 0);
      assert Matches(p, []);
      EmptyTermMatchesAll(passwords[1..]);
    }
  }

  /** A row whose website and category are null is found by its title and username alone. */
  lemma NullFieldsNeverMatch(p: Password, searchTerm: string)
    requires p.website.None? && p.category.None?
    ensures Matches(p, searchTerm) <==>
      Includes(ToLower(p.title), ToLower(searchTerm)) || Includes(ToLower(p.username), ToLower(searchTerm))
  {
  }

  lemma ToLowerConcat(a: string, b: string)
    ensures ToLower(a + b) == ToLower(a) + ToLower(b)
  {
    var l, r := ToLower(a + b), ToLower(a) + ToLower(b);
    assert |l| == |r|;
    forall i | 0 <= i < |l|
      ensures l[i] == r[i]
    {
      if i < |a| {
        assert (a + b)[i] == a[i];
      } else {
        assert (a + b)[i] == b[i - |a|];
      }
    }
  }

  /** A string that includes `t + u` includes `t`. */
  lemma IncludesPrefix(s: string, t: string, u: string)
    requires Includes(s, t + u)
    ensures Includes(s, t)
  {
    var i :| 0 <= i <= |s| - |t + u| && OccursAt(s, t + u, i);
    assert s[i..i + |t + u|] == t + u;
    assert s[i..i + |t|] == s[i..i + |t + u|][..|t|] == (t + u)[..|t|] == t;
    assert OccursAt(s, t, i);
  }

  lemma MatchesNarrowing(p: Password, t: string, u: string)
    requires Matches(p, t + u)
    ensures Matches(p, t)
  {
    ToLowerConcat(t, u);
    var lt, lu := ToLower(t), ToLower(u);
    if Includes(ToLower(p.title), lt + lu) {
      IncludesPrefix(ToLower(p.title), lt, lu);
    } else if Includes(ToLower(p.username), lt + lu) {
      IncludesPrefix(ToLower(p.username), lt, lu);
    } else if FieldIncludes(p.website, lt + lu) {
      IncludesPrefix(ToLower(p.website.value), lt, lu);
    } else {
      IncludesPrefix(ToLower(p.category.value), lt, lu);
    }
  }

  /** Typing more of the term only narrows the list: what `t + u` keeps, `t` keeps too, in the same order. */
  lemma {:induction false} FilterNarrows(passwords: seq<Password>, t: string, u: string)
    ensures SubsequenceOf(KeepMatching(passwords, t + u), KeepMatching(passwords, t))
  {
    if passwords != [] {
      var p := passwords[0];
      var longer, shorter := KeepMatching(passwords[1..], t + u), KeepMatching(passwords[1..], t);
      FilterNarrows(passwords[1..], t, u);
      if Matches(p, t + u) {
        MatchesNarrowing(p, t, u);
        assert KeepMatching(passwords, t + u) == [p] + longer;
        assert KeepMatching(passwords, t) == [p] + shorter;
        assert ([p] + longer)[1..] == longer && ([p] + shorter)[1..] == shorter;
      } else if Matches(p, t) {
        assert KeepMatching(passwords, t + u) == longer;
        assert KeepMatching(passwords, t) == [p] + shorter;
        assert ([p] + shorter)[1..] == shorter;
        if longer != [] {
          assert SubsequenceOf(longer, ([p] + shorter)[1..]);
          assert SubsequenceOf(longer, [p] + shorter);
        }
      } else {
        assert KeepMatching(passwords, t + u) == longer;
        assert KeepMatching(passwords, t) == shorter;
      }
    }
  }

  // ---------------------------------------------------------------------
  // Growth on copy (components/garden-view.tsx:68-70)
  // ---------------------------------------------------------------------

  const MaxGrowthStage := 5

  /** `prev.map(p => p.id === id ? { ...p, growth_stage: Math.min(p.growth_stage + 1, 5) } : p)` */
  function CopiedGrowth(passwords: seq<Password>, id: int): (updated: seq<Password>)
    ensures |updated| == |passwords|
    ensures forall i :: 0 <= i < |passwords| && passwords[i].id != id ==> updated[i] == passwords[i]
    ensures forall i :: 0 <= i < |passwords| && passwords[i].id == id ==>
      updated[i] == passwords[i].(growthStage := Utils.Min(passwords[i].growthStage + 1, MaxGrowthStage))
  {
    if passwords == [] then []
    else
      var p := passwords[0];
      [if p.id == id then p.(growthStage := Utils.Min(p.growthStage + 1, MaxGrowthStage)) else p]
      + CopiedGrowth(passwords[1..], id)
  }

  /** The copied entry's stage is at most 5; one already at 5 or above (the server does not cap it) is set to 5. */
  lemma CopiedGrowthCapped(passwords: seq<Password>, id: int, i: int)
    requires 0 <= i < |passwords| && passwords[i].id == id
    ensures CopiedGrowth(passwords, id)[i].growthStage <= MaxGrowthStage
    ensures passwords[i].growthStage >= MaxGrowthStage ==> CopiedGrowth(passwords, id)[i].growthStage == MaxGrowthStage
    ensures passwords[i].growthStage < MaxGrowthStage ==>
      CopiedGrowth(passwords, id)[i].growthStage == passwords[i].growthStage + 1
  {
  }

  function CopiedTimes(passwords: seq<Password>, id: int, n: nat): seq<Password>
  {
    if n == 0 then passwords else CopiedGrowth(CopiedTimes(passwords, id, n - 1), id)
  }

  /** After n >= 1 copies the entry's stage is min(stage + n, 5), and every other entry is as it was. */
  lemma {:induction false} RepeatedCopies(passwords: seq<Password>, id: int, n: nat)
    requires n >= 1
    ensures |CopiedTimes(passwords, id, n)| == |passwords|
    ensures forall i :: 0 <= i < |passwords| && passwords[i].id == id ==>
      CopiedTimes(passwords, id, n)[i]
        == passwords[i].(growthStage := Utils.Min(passwords[i].growthStage + n, MaxGrowthStage))
    ensures forall i :: 0 <= i < |passwords| && passwords[i].id != id ==>
      CopiedTimes(passwords, id, n)[i] == passwords[i]
  {
    if n > 1 {
      RepeatedCopies(passwords, id, n - 1);
    }
  }

  // ---------------------------------------------------------------------
  // Favorite toggle (components/garden-view.tsx:86)
  // ---------------------------------------------------------------------

  /** `prev.map(p => p.id === id ? { ...p, favorite: !p.favorite } : p)` */
  function ToggledFavorite(passwords: seq<Password>, id: int): (updated: seq<Password>)
    ensures |updated| == |passwords|
    ensures forall i :: 0 <= i < |passwords| ==> updated[i].id == passwords[i].id
    ensures forall i :: 0 <= i < |passwords| && passwords[i].id != id ==> updated[i] == passwords[i]
    ensures forall i :: 0 <= i < |passwords| && passwords[i].id == id ==>
      updated[i] == passwords[i].(favorite := !passwords[i].favorite)
  {
    if passwords == [] then []
    else
      var p := passwords[0];
      [if p.id == id then p.(favorite := !p.favorite) else p] + ToggledFavorite(passwords[1..], id)
  }

  /** Toggling the same secret twice gives back the list. */
  lemma ToggleTwice(passwords: seq<Password>, id: int)
    ensures ToggledFavorite(ToggledFavorite(passwords, id), id) == passwords
  {
    var twice := ToggledFavorite(ToggledFavorite(passwords, id), id);
    assert forall i :: 0 <= i < |passwords| ==> twice[i] == passwords[i];
  }

  /** Toggles of two secrets can be applied in either order. */
  lemma TogglesCommute(passwords: seq<Password>, a: int, b: int)
    ensures ToggledFavorite(ToggledFavorite(passwords, a), b) == ToggledFavorite(ToggledFavorite(passwords, b), a)
  {
    var ab, ba := ToggledFavorite(ToggledFavorite(passwords, a), b), ToggledFavorite(ToggledFavorite(passwords, b), a);
    assert forall i :: 0 <= i < |passwords| ==> ab[i] == ba[i];
  }

  /** Copying one secret and toggling another (or the same) commute: they touch different fields. */
  lemma CopyAndToggleCommute(passwords: seq<Password>, a: int, b: int)
    ensures CopiedGrowth(ToggledFavorite(passwords, b), a) == ToggledFavorite(CopiedGrowth(passwords, a), b)
  {
    var x, y := CopiedGrowth(ToggledFavorite(passwords, b), a), ToggledFavorite(CopiedGrowth(passwords, a), b);
    assert forall i :: 0 <= i < |passwords| ==> x[i] == y[i];
  }
}

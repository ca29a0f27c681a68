/**
 * The choice of GitHub repositories shown on the page: repositories with a
 * non-blank description, by star count from most to fewest (ties in the
 * order the API listed them), at most three of them.
 */
module Repos {
  import opened Wrappers
  import opened Text

  /** The fields of a repository from the GitHub API that the cards use. */
  datatype Repo = Repo(name: string, description: Option<string>, stars: nat, url: string)

  /** How many cards are shown. */
  const SHOWN: nat := 3

  /** `repo.description && repo.description.trim() !== ""`: present, and not only white space. */
  predicate HasDescription(r: Repo) {
    r.description.Some? && Trim(r.description.value) != []
  }

  /** A described repository has a description with a character that is not white space. */
  lemma HasDescriptionIffVisibleText(r: Repo)
    ensures HasDescription(r) <==>
      r.description.Some? && exists k :: 0 <= k < |r.description.value| && !IsTrimmable(r.description.value[k])
  {
    if r.description.Some? {
      TrimEmptyIffBlank(r.description.value);
    }
  }

  /** The filter step: the described repositories, in input order. */
  function Described(repos: seq<Repo>): (r: seq<Repo>)
    ensures |r| <= |repos|
  {
    if |repos| == 0 then []
    else if HasDescription(repos[0]) then [repos[0]] + Described(repos[1..])
    else Described(repos[1..])
  }

  /** A repository is kept exactly when it is in the input and described. */
  lemma {:induction false} DescribedMember(repos: seq<Repo>, x: Repo)
    ensures x in Described(repos) <==> x in repos && HasDescription(x)
    decreases |repos|
  {
    if |repos| != 0 {
      var head := repos[0];
      var tail := repos[1..];
      DescribedMember(tail, x);
      assert repos == [head] + tail;
      assert x in repos <==> x == head || x in tail;
    }
  }

  /** Kept repositories keep their order: described repositories are listed as they came. */
  lemma {:induction false} DescribedKeepsAll(repos: seq<Repo>)
    requires forall k :: 0 <= k < |repos| ==> HasDescription(repos[k])
    ensures Described(repos) == repos
    decreases |repos|
  {
    if |repos| != 0 {
      DescribedKeepsAll(repos[1..]);
    }
  }

  /** The repositories with exactly `stars` stars, in order. */
  function WithStars(s: seq<Repo>, stars: nat): (r: seq<Repo>)
    ensures |r| <= |s|
    ensures forall k :: 0 <= k < |r| ==> r[k].stars == stars
  {
    if |s| == 0 then []
    else if s[0].stars == stars then [s[0]] + WithStars(s[1..], stars)
    else WithStars(s[1..], stars)
  }

  /** From most to fewest stars. */
  predicate NonIncreasing(s: seq<Repo>) {
    forall i, j :: 0 <= i < j < |s| ==> s[i].stars >= s[j].stars
  }

  /** Puts `x` before the first repository with no more stars than it. */
  function Insert(x: Repo, s: seq<Repo>): (r: seq<Repo>)
    ensures |r| == |s| + 1
  {
    if |s| == 0 then [x]
    else if s[0].stars <= x.stars then [x] + s
    else [s[0]] + Insert(x, s[1..])
  }

  /**
   * `sort((a, b) => b.stargazers_count - a.stargazers_count)`, a stable sort:
   * the head is inserted ahead of the sorted tail's repositories with as
   * many stars.
   */
  function SortByStars(s: seq<Repo>): (r: seq<Repo>)
    ensures |r| == |s|
  {
    if |s| == 0 then [] else Insert(s[0], SortByStars(s[1..]))
  }

  lemma {:induction false} InsertMultiset(x: Repo, s: seq<Repo>)
    ensures multiset(Insert(x, s)) == multiset(s) + multiset{x}
    decreases |s|
  {
    if |s| != 0 && s[0].stars > x.stars {
      InsertMultiset(x, s[1..]);
      assert s == [s[0]] + s[1..];
    }
  }

  lemma {:induction false} InsertNonIncreasing(x: Repo, s: seq<Repo>)
    requires NonIncreasing(s)
    ensures NonIncreasing(Insert(x, s))
    ensures |s| > 0 ==> Insert(x, s)[0].stars == if s[0].stars <= x.stars then x.stars else s[0].stars
    decreases |s|
  {
    if |s| != 0 && s[0].stars > x.stars {
      var rest := Insert(x, s[1..]);
      InsertNonIncreasing(x, s[1..]);
      InsertMultiset(x, s[1..]);
      var r := [s[0]] + rest;
      forall i, j | 0 <= i < j < |r| ensures r[i].stars >= r[j].stars {
        if i == 0 {
          assert r[j] in multiset(rest);
          assert r[j] == x || r[j] in s[1..];
        }
      }
    }
  }

  lemma {:induction false} InsertWithStars(x: Repo, s: seq<Repo>, stars: nat)
    ensures WithStars(Insert(x, s), stars) == (if x.stars == stars then [x] else []) + WithStars(s, stars)
    decreases |s|
  {
    if |s| != 0 && s[0].stars > x.stars {
      InsertWithStars(x, s[1..], stars);
    }
  }

  /** The sorted list holds the same repositories, as many times each. */
  lemma {:induction false} SortIsPermutation(s: seq<Repo>)
    ensures multiset(SortByStars(s)) == multiset(s)
    decreases |s|
  {
    if |s| != 0 {
      var tail := s[1..];
      var sortedTail := SortByStars(tail);
      SortIsPermutation(tail);
      InsertMultiset(s[0], sortedTail);
      assert SortByStars(s) == Insert(s[0], sortedTail);
      assert s == [s[0]] + tail;
      assert multiset(s) == multiset{s[0]} + multiset(tail);
    }
  }

  /** The sorted list runs from most to fewest stars. */
  lemma {:induction false} SortIsNonIncreasing(s: seq<Repo>)
    ensures NonIncreasing(SortByStars(s))
    decreases |s|
  {
    if |s| != 0 {
      SortIsNonIncreasing(s[1..]);
      InsertNonIncreasing(s[0], SortByStars(s[1..]));
    }
  }

  /** The sort is stable: repositories with equally many stars stay in input order. */
  lemma {:induction false} SortIsStable(s: seq<Repo>, stars: nat)
    ensures WithStars(SortByStars(s), stars) == WithStars(s, stars)
    decreases |s|
  {
    if |s| != 0 {
      SortIsStable(s[1..], stars);
      InsertWithStars(s[0], SortByStars(s[1..]), stars);
    }
  }

  /** The three repositories the page shows, best first. */
  function Shown(repos: seq<Repo>): (r: seq<Repo>)
    ensures |r| <= SHOWN
  {
    var sorted := SortByStars(Described(repos));
    if |sorted| <= SHOWN then sorted else sorted[..SHOWN]
  }

  /** A prefix of a list sorted by stars holds its best repositories: none left out has more stars. */
  lemma PrefixIsTop(sorted: seq<Repo>, n: nat)
    requires NonIncreasing(sorted) && n <= |sorted|
    ensures forall x, k :: x in multiset(sorted) - multiset(sorted[..n]) && 0 <= k < n ==> x.stars <= sorted[k].stars
  {
    var top := sorted[..n];
    var rest := sorted[n..];
    assert sorted == top + rest;
    assert multiset(sorted) == multiset(top) + multiset(rest);
    forall x, k | x in multiset(sorted) - multiset(top) && 0 <= k < n ensures x.stars <= sorted[k].stars {
      assert x in rest;
      var m :| 0 <= m < |rest| && rest[m] == x;
      assert sorted[n + m] == x;
    }
  }

  /** The page shows as many repositories as there are described ones, up to three, from most to fewest stars. */
  lemma ShownCountAndOrder(repos: seq<Repo>)
    ensures |Shown(repos)| == if |Described(repos)| <= SHOWN then |Described(repos)| else SHOWN
    ensures NonIncreasing(Shown(repos))
  {
    SortIsNonIncreasing(Described(repos));
  }

  /** Every repository shown is in the input and described, and is shown no more often than it is listed. */
  lemma ShownDescribed(repos: seq<Repo>)
    ensures multiset(Shown(repos)) <= multiset(Described(repos))
    ensures forall k :: 0 <= k < |Shown(repos)| ==> HasDescription(Shown(repos)[k]) && Shown(repos)[k] in repos
  {
    var described := Described(repos);
    var sorted := SortByStars(described);
    var shown := Shown(repos);
    SortIsPermutation(described);
    assert sorted == shown + sorted[|shown|..];
    assert multiset(sorted) == multiset(shown) + multiset(sorted[|shown|..]);
    forall k | 0 <= k < |shown| ensures HasDescription(shown[k]) && shown[k] in repos {
      assert shown[k] in multiset(described);
      DescribedMember(repos, shown[k]);
    }
  }

  /** No described repository that is left out has more stars than one that is shown. */
  lemma ShownAreTop(repos: seq<Repo>)
    ensures forall x, k :: x in multiset(Described(repos)) - multiset(Shown(repos)) && 0 <= k < |Shown(repos)| ==>
              x.stars <= Shown(repos)[k].stars
  {
    var described := Described(repos);
    var sorted := SortByStars(described);
    SortIsPermutation(described);
    SortIsNonIncreasing(described);
    assert Shown(repos) == sorted[..|Shown(repos)|];
    PrefixIsTop(sorted, |Shown(repos)|);
  }

  /** Repositories with equally many stars are shown in the order the API listed them. */
  lemma ShownKeepsTies(repos: seq<Repo>, stars: nat)
    ensures WithStars(Shown(repos), stars) <= WithStars(Described(repos), stars)
  {
    var sorted := SortByStars(Described(repos));
    SortIsStable(Described(repos), stars);
    WithStarsOfPrefix(sorted, |Shown(repos)|, stars);
  }

  /** Keeping a prefix keeps a prefix of each group of equally starred repositories. */
  lemma {:induction false} WithStarsOfPrefix(s: seq<Repo>, n: nat, stars: nat)
    requires n <= |s|
    ensures WithStars(s[..n], stars) <= WithStars(s, stars)
    decreases n
  {
    if n != 0 {
      assert s[..n][1..] == s[1..][..n - 1];
      WithStarsOfPrefix(s[1..], n - 1, stars);
    }
  }

  /** A description whose first character is not white space is kept. */
  lemma VisibleFirstIsDescribed(text: string)
    requires |text| > 0 && !IsTrimmable(text[0])
    ensures Trim(text) != []
  {
    TrimEmptyIffBlank(text);
  }

  /** A described repository at the front is kept. */
  lemma DescribedKeeps(x: Repo, rest: seq<Repo>)
    requires HasDescription(x)
    ensures Described([x] + rest) == [x] + Described(rest)
  {
    assert ([x] + rest)[1..] == rest;
  }

  /** A repository at the front without a description is dropped. */
  lemma DescribedDrops(x: Repo, rest: seq<Repo>)
    requires !HasDescription(x)
    ensures Described([x] + rest) == Described(rest)
  {
    assert ([x] + rest)[1..] == rest;
  }

  /** The filter over the scenario's repositories, one repository at a time. */
  lemma ScenarioDescribed(a: Repo, b: Repo, c: Repo, d: Repo)
    requires HasDescription(a) && !HasDescription(b) && HasDescription(c) && HasDescription(d)
    ensures Described([a, b, c, d]) == [a, c, d]
  {
    DescribedKeeps(d, []);
    DescribedKeeps(c, [d]);
    DescribedDrops(b, [c, d]);
    DescribedKeeps(a, [b, c, d]);
  }

  /** The sort over the scenario's described repositories, one insertion at a time. */
  lemma ScenarioSorted(a: Repo, c: Repo, d: Repo)
    requires a.stars == 5 && c.stars == 9 && d.stars == 5
    ensures SortByStars([a, c, d]) == [c, a, d]
  {
    var s := [a, c, d];
    assert SortByStars(s[2..]) == [d];
    assert SortByStars(s[1..]) == [c, d];
    assert [c, d][1..] == [d];
    assert Insert(a, [d]) == [a, d];
    assert Insert(a, [c, d]) == [c] + Insert(a, [d]);
  }

  /**
   * A repository whose description is white space only is dropped, the
   * best-starred one comes first, and two with equally many stars keep the
   * order the API listed them in.
   */
  lemma ShownScenario(text: string, blank: string)
    requires |text| > 0 && !IsTrimmable(text[0])
    requires forall k :: 0 <= k < |blank| ==> IsTrimmable(blank[k])
    ensures var a := Repo("a", Some(text), 5, "");
            var b := Repo("b", Some(blank), 40, "");
            var c := Repo("c", Some(text), 9, "");
            var d := Repo("d", Some(text), 5, "");
            Shown([a, b, c, d]) == [c, a, d]
  {
    var a := Repo("a", Some(text), 5, "");
    var b := Repo("b", Some(blank), 40, "");
    var c := Repo("c", Some(text), 9, "");
    var d := Repo("d", Some(text), 5, "");
    TrimEmptyIffBlank(blank);
    VisibleFirstIsDescribed(text);
    ScenarioDescribed(a, b, c, d);
    ScenarioSorted(a, c, d);
  }
}

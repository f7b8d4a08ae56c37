/** The repository list (`src/hooks/useRepositories.ts`): the public repositories of two
    GitHub owners, merged, stripped of entries without a name or a link, copied into the
    site's own record, and sorted newest first in place. The two HTTP fetches are
    parameters; `time` stands for `new Date(updated_at).getTime()`. */
module Repositories {
  import opened Wrappers

  const FirstOwner := "Monynha-Softwares"
  const SecondOwner := "marcelo-m7"

  /** A repository as the GitHub API returns it. */
  datatype GitHubRepo = GitHubRepo(
    id: int, name: string, htmlUrl: string, description: Option<string>,
    language: Option<string>, stars: int, updatedAt: string, ownerLogin: string)

  /** A repository as the site keeps it. */
  datatype Repository = Repository(
    id: int, name: string, htmlUrl: string, description: Option<string>,
    language: Option<string>, stars: int, updatedAt: string, ownerLogin: string)

  /** The message a fetch that is not ok throws. */
  function FetchError(owner: string): string {
    "Failed to fetch repositories from " + owner
  }

  /** An entry is kept when its name and its link are both non-empty. */
  predicate Essential(g: GitHubRepo) {
    g.name != "" && g.htmlUrl != ""
  }

  /** The site's record of an entry: every field copied, the owner's login flattened. */
  function ToRepository(g: GitHubRepo): (r: Repository)
    ensures r.id == g.id && r.name == g.name && r.htmlUrl == g.htmlUrl
    ensures r.description == g.description && r.language == g.language
    ensures r.stars == g.stars && r.updatedAt == g.updatedAt && r.ownerLogin == g.ownerLogin
  {
    Repository(g.id, g.name, g.htmlUrl, g.description, g.language, g.stars, g.updatedAt,
               g.ownerLogin)
  }

  /** `filter(Essential).map(ToRepository)`, in order. */
  function Kept(repos: seq<GitHubRepo>): (r: seq<Repository>)
    ensures |r| <= |repos|
    ensures forall x | x in r :: x.name != "" && x.htmlUrl != ""
    ensures forall x | x in r :: exists g | g in repos :: Essential(g) && x == ToRepository(g)
    ensures forall g | g in repos && Essential(g) :: ToRepository(g) in r
  {
    if repos == [] then []
    else
      var rest := Kept(repos[1..]);
      assert forall g | g in repos[1..] :: g in repos;
      if Essential(repos[0]) then [ToRepository(repos[0])] + rest else rest
  }

  /** The first owner's entries come before the second owner's. */
  lemma {:induction false} KeptAppend(a: seq<GitHubRepo>, b: seq<GitHubRepo>)
    ensures Kept(a + b) == Kept(a) + Kept(b)
    decreases |a|
  {
    if a == [] {
      assert a + b == b;
    } else {
      assert (a + b)[0] == a[0] && (a + b)[1..] == a[1..] + b;
      KeptAppend(a[1..], b);
    }
  }

  /** Entries without a name or a link never reach the list. */
  lemma {:induction false} KeptOfNonEssential(repos: seq<GitHubRepo>)
    requires forall g | g in repos :: !Essential(g)
    ensures Kept(repos) == []
    decreases |repos|
  {
    if repos != [] {
      assert forall g | g in repos[1..] :: g in repos;
      KeptOfNonEssential(repos[1..]);
    }
  }

  /** Newest first: no repository precedes one updated later. */
  predicate NewestFirst(rs: seq<Repository>, time: string -> int) {
    forall p, q | 0 <= p < q < |rs| :: time(rs[p].updatedAt) >= time(rs[q].updatedAt)
  }

  /** `allRepos.sort(...)`: reorders the array in place, newest first. */
  method SortNewestFirst(a: array<Repository>, time: string -> int)
    modifies a
    ensures NewestFirst(a[..], time)
    ensures multiset(a[..]) == multiset(old(a[..]))
  {
    var i := 0;
    while i < a.Length
      invariant 0 <= i <= a.Length
      invariant forall p, q | 0 <= p < q < i :: time(a[p].updatedAt) >= time(a[q].updatedAt)
      invariant multiset(a[..]) == multiset(old(a[..]))
    {
      Insert(a, i, time);
      i := i + 1;
    }
  }

  /** One insertion step: moves `a[i]` left past every element updated earlier, so that the
      prefix up to and including `i` is newest first. */
  method Insert(a: array<Repository>, i: nat, time: string -> int)
    requires i < a.Length
    requires forall p, q | 0 <= p < q < i :: time(a[p].updatedAt) >= time(a[q].updatedAt)
    modifies a
    ensures forall p, q | 0 <= p < q <= i :: time(a[p].updatedAt) >= time(a[q].updatedAt)
    ensures multiset(a[..]) == multiset(old(a[..]))
  {
    var j := i;
    while j > 0 && time(a[j - 1].updatedAt) < time(a[j].updatedAt)
      invariant 0 <= j <= i
      invariant OrderedBut(a[..], i, j, time) && NewerThanRest(a[..], i, j, time)
      invariant multiset(a[..]) == multiset(old(a[..]))
    {
      ghost var s := a[..];
      Swap(a, j);
      assert a[..] == s[j - 1 := s[j]][j := s[j - 1]];
      SwapStep(s, i, j, time);
      j := j - 1;
    }
    InsertDone(a[..], i, j, time);
  }

  /** Up to `i`, every pair that does not involve position `j` is newest first. */
  predicate OrderedBut(s: seq<Repository>, i: nat, j: nat, time: string -> int)
    requires i < |s|
  {
    forall p, q | 0 <= p < q <= i && p != j && q != j ::
      time(s[p].updatedAt) >= time(s[q].updatedAt)
  }

  /** The element at `j` is newer than everything after it up to `i`. */
  predicate NewerThanRest(s: seq<Repository>, i: nat, j: nat, time: string -> int)
    requires j <= i < |s|
  {
    forall q | j < q <= i :: time(s[j].updatedAt) > time(s[q].updatedAt)
  }

  /** Swapping the moving element with an older left neighbour keeps the step's invariant. */
  lemma SwapStep(s: seq<Repository>, i: nat, j: nat, time: string -> int)
    requires 0 < j <= i < |s|
    requires OrderedBut(s, i, j, time) && NewerThanRest(s, i, j, time)
    requires time(s[j - 1].updatedAt) < time(s[j].updatedAt)
    ensures var t := s[j - 1 := s[j]][j := s[j - 1]];
      OrderedBut(t, i, j - 1, time) && NewerThanRest(t, i, j - 1, time)
  {
  }

  /** Once the moving element has stopped, the whole prefix up to `i` is newest first. */
  lemma InsertDone(s: seq<Repository>, i: nat, j: nat, time: string -> int)
    requires j <= i < |s|
    requires OrderedBut(s, i, j, time) && NewerThanRest(s, i, j, time)
    requires j == 0 || time(s[j - 1].updatedAt) >= time(s[j].updatedAt)
    ensures forall p, q | 0 <= p < q <= i :: time(s[p].updatedAt) >= time(s[q].updatedAt)
  {
  }

  /** Exchanges `a[j - 1]` and `a[j]`. */
  method Swap(a: array<Repository>, j: nat)
    requires 0 < j < a.Length
    modifies a
    ensures a[j - 1] == old(a[j]) && a[j] == old(a[j - 1])
    ensures forall k | 0 <= k < a.Length && k != j - 1 && k != j :: a[k] == old(a[k])
    ensures multiset(a[..]) == multiset(old(a[..]))
  {
    a[j - 1], a[j] := a[j], a[j - 1];
  }

  /** The query: both fetches, then the merged, kept list sorted newest first. When a fetch is
      not ok (`None`) the query fails with that owner's message. */
  method LoadRepositories(first: Option<seq<GitHubRepo>>, second: Option<seq<GitHubRepo>>,
                          time: string -> int)
    returns (r: Result<seq<Repository>, string>)
    ensures r.Ok? <==> first.Some? && second.Some?
    ensures r.Err? ==>
              || (first.None? && r.error == FetchError(FirstOwner))
              || (second.None? && r.error == FetchError(SecondOwner))
    ensures r.Ok? ==> multiset(r.value) == multiset(Kept(first.value) + Kept(second.value))
    ensures r.Ok? ==> NewestFirst(r.value, time)
  {
    if first.None? {
      return Err(FetchError(FirstOwner));
    }
    if second.None? {
      return Err(FetchError(SecondOwner));
    }
    var all := Kept(first.value + second.value);
    KeptAppend(first.value, second.value);
    var a := new Repository[|all|](i requires 0 <= i < |all| => all[i]);
    assert a[..] == all;
    SortNewestFirst(a, time);
    return Ok(a[..]);
  }

  /** Every listed repository is an essential entry of one of the two owners, and every
      essential entry is listed. */
  lemma ListedIffEssential(first: seq<GitHubRepo>, second: seq<GitHubRepo>,
                           listed: seq<Repository>, x: Repository)
    requires multiset(listed) == multiset(Kept(first) + Kept(second))
    ensures x in listed <==>
              exists g | g in first + second :: Essential(g) && x == ToRepository(g)
  {
    KeptAppend(first, second);
    assert x in listed <==> x in multiset(listed);
    assert x in Kept(first + second) <==> x in multiset(Kept(first + second));
  }
}

/**
 * The practice page's derived data: the topic picker's options (every topic
 * once, in the order topics first appear), the problem filter (title search,
 * difficulty picker, topic picker) and the solved counts of the stats cards.
 */
module Practice {
  import opened Text
  import opened Seqs

  /** The fields of a problem the page derives data from. */
  datatype Problem = Problem(id: string, title: string, difficulty: string, topics: seq<string>, solved: bool)

  /** The picker value that switches a picker's test off. */
  const AnyValue: string := "all"

  /** `problems.flatMap(p => p.topics)`. */
  function TopicsOf(problems: seq<Problem>): (ts: seq<string>)
    ensures forall t :: t in ts ==> exists i :: 0 <= i < |problems| && t in problems[i].topics
    ensures forall i, t :: 0 <= i < |problems| && t in problems[i].topics ==> t in ts
  {
    if problems == [] then []
    else
      var rest := TopicsOf(problems[1..]);
      assert forall t :: t in rest ==> exists i :: 0 <= i < |problems| && t in problems[i].topics by {
        forall t | t in rest
          ensures exists i :: 0 <= i < |problems| && t in problems[i].topics
        {
          var j :| 0 <= j < |problems[1..]| && t in problems[1..][j].topics;
          assert problems[j + 1] == problems[1..][j];
        }
      }
      assert forall i, t :: 1 <= i < |problems| && t in problems[i].topics ==> t in rest by {
        forall i, t | 1 <= i < |problems| && t in problems[i].topics
          ensures t in rest
        {
          assert problems[1..][i - 1] == problems[i];
        }
      }
      problems[0].topics + rest
  }

  predicate NoDuplicates<T(==)>(xs: seq<T>)
  {
    forall i, j :: 0 <= i < j < |xs| ==> xs[i] != xs[j]
  }

  /** The position of the first occurrence of `x`. */
  function FirstIndex<T(==)>(xs: seq<T>, x: T): (i: nat)
    requires x in xs
    ensures i < |xs| && xs[i] == x && x !in xs[..i]
  {
    if xs[0] == x then 0
    else
      var j := FirstIndex(xs[1..], x);
      assert xs[..j + 1] == [xs[0]] + xs[1..][..j];
      j + 1
  }

  /** `[...new Set(xs)]`: each value once, kept where it first occurs. */
  function Dedup<T(==)>(xs: seq<T>): (r: seq<T>)
    ensures NoDuplicates(r)
    ensures forall x :: x in r ==> x in xs
    ensures forall x :: x in xs ==> x in r
    decreases |xs|
  {
    if xs == [] then []
    else
      var init := xs[..|xs| - 1];
      var last := xs[|xs| - 1];
      assert xs == init + [last];
      var r := Dedup(init);
      if last in r then r else r + [last]
  }

  /** The first occurrence of a value in a prefix is its first occurrence in the whole sequence. */
  lemma FirstIndexPrefix<T>(xs: seq<T>, n: nat, x: T)
    requires n <= |xs| && x in xs[..n]
    ensures FirstIndex(xs, x) == FirstIndex(xs[..n], x)
  {
    var i, k := FirstIndex(xs, x), FirstIndex(xs[..n], x);
    assert xs[..n][k] == xs[k];
  }

  /** The de-duplicated values come in the order of their first occurrences. */
  lemma {:induction false} DedupFirstOccurrenceOrder<T>(xs: seq<T>)
    ensures forall i, j :: 0 <= i < j < |Dedup(xs)| ==> FirstIndex(xs, Dedup(xs)[i]) < FirstIndex(xs, Dedup(xs)[j])
    decreases |xs|
  {
    if xs != [] {
      var n := |xs| - 1;
      var init, last := xs[..n], xs[n];
      assert xs == init + [last];
      DedupFirstOccurrenceOrder(init);
      var prev := Dedup(init);
      var r := Dedup(xs);
      forall k | 0 <= k < |prev|
        ensures FirstIndex(xs, prev[k]) == FirstIndex(init, prev[k]) < n
      {
        FirstIndexPrefix(xs, n, prev[k]);
      }
      if last !in prev {
        assert last !in init;
        assert FirstIndex(xs, last) == n;
      }
      forall i, j | 0 <= i < j < |r|
        ensures FirstIndex(xs, r[i]) < FirstIndex(xs, r[j])
      {
        if j < |prev| {
          assert r[i] == prev[i] && r[j] == prev[j];
        } else {
          assert r[i] == prev[i] && r[j] == last;
        }
      }
    }
  }

  /** `allTopics`: the topic picker's options. */
  function AllTopics(problems: seq<Problem>): (topics: seq<string>)
    ensures NoDuplicates(topics)
    ensures forall t :: t in topics ==> exists i :: 0 <= i < |problems| && t in problems[i].topics
    ensures forall i, t :: 0 <= i < |problems| && t in problems[i].topics ==> t in topics
  {
    Dedup(TopicsOf(problems))
  }

  predicate MatchesSearch(p: Problem, query: string)
  {
    Includes(Lower(p.title), Lower(query))
  }

  predicate MatchesDifficulty(p: Problem, difficultyFilter: string)
  {
    difficultyFilter == AnyValue || p.difficulty == difficultyFilter
  }

  predicate MatchesTopic(p: Problem, topicFilter: string)
  {
    topicFilter == AnyValue || topicFilter in p.topics
  }

  /** The test of `problems.filter(...)`. */
  function Listed(query: string, difficultyFilter: string, topicFilter: string): Problem -> bool
  {
    p => MatchesSearch(p, query) && MatchesDifficulty(p, difficultyFilter) && MatchesTopic(p, topicFilter)
  }

  /** `filteredProblems`: the listed problems, in page order. */
  function FilteredProblems(problems: seq<Problem>, query: string, difficultyFilter: string, topicFilter: string)
    : (listed: seq<Problem>)
    ensures Subseq(listed, problems)
    ensures forall p :: p in listed ==>
      p in problems && MatchesSearch(p, query) && MatchesDifficulty(p, difficultyFilter) && MatchesTopic(p, topicFilter)
    ensures forall p :: p in problems ==>
      (MatchesSearch(p, query) && MatchesDifficulty(p, difficultyFilter) && MatchesTopic(p, topicFilter) ==> p in listed)
  {
    Filter(problems, Listed(query, difficultyFilter, topicFilter))
  }

  /** Only the title is searched: two problems with the same title, difficulty and topics are listed alike. */
  lemma SearchReadsTitleOnly(p: Problem, q: Problem, query: string, difficultyFilter: string, topicFilter: string)
    requires p.title == q.title && p.difficulty == q.difficulty && p.topics == q.topics
    ensures Listed(query, difficultyFilter, topicFilter)(p) == Listed(query, difficultyFilter, topicFilter)(q)
  {
  }

  /** After "Clear Filters" every problem is listed, in order. */
  lemma ClearFiltersListsAll(problems: seq<Problem>)
    ensures FilteredProblems(problems, "", AnyValue, AnyValue) == problems
  {
    forall p | p in problems
      ensures Listed("", AnyValue, AnyValue)(p)
    {
      IncludesEmpty(Lower(p.title));
    }
    FilterAll(problems, Listed("", AnyValue, AnyValue));
  }

  /** Every option of the topic picker, with the other filters cleared, lists at least one problem. */
  lemma EveryTopicListsSomething(problems: seq<Problem>, topic: string)
    requires topic in AllTopics(problems)
    ensures FilteredProblems(problems, "", AnyValue, topic) != []
  {
    var i :| 0 <= i < |problems| && topic in problems[i].topics;
    IncludesEmpty(Lower(problems[i].title));
    assert problems[i] in FilteredProblems(problems, "", AnyValue, topic);
  }

  /** The stats cards. */
  datatype Stats = Stats(total: nat, solved: nat, easy: nat, medium: nat, hard: nat)

  function IsSolved(): Problem -> bool
  {
    (p: Problem) => p.solved
  }

  function SolvedAt(difficulty: string): Problem -> bool
  {
    (p: Problem) => p.difficulty == difficulty && p.solved
  }

  /** `stats`: the total is the number of problems, and no count exceeds it. */
  function ComputeStats(problems: seq<Problem>): (s: Stats)
    ensures s.total == |problems|
    ensures s.solved <= s.total && s.easy <= s.total && s.medium <= s.total && s.hard <= s.total
    ensures s.solved == 0 <==> forall p :: p in problems ==> !p.solved
  {
    Stats(|problems|, Count(problems, IsSolved()),
          Count(problems, SolvedAt("Easy")), Count(problems, SolvedAt("Medium")), Count(problems, SolvedAt("Hard")))
  }

  predicate KnownDifficulty(p: Problem)
  {
    p.difficulty == "Easy" || p.difficulty == "Medium" || p.difficulty == "Hard"
  }

  /** Solved never exceeds total; the per-difficulty counts never exceed solved, and add up to it when every difficulty is Easy, Medium or Hard. */
  lemma {:induction false} StatsConsistent(problems: seq<Problem>)
    ensures var s := ComputeStats(problems);
      && s.solved <= s.total
      && s.easy + s.medium + s.hard <= s.solved
      && ((forall k :: 0 <= k < |problems| ==> KnownDifficulty(problems[k])) ==> s.easy + s.medium + s.hard == s.solved)
    decreases |problems|
  {
    if problems != [] {
      StatsConsistent(problems[1..]);
      CountCons(problems, IsSolved());
      CountCons(problems, SolvedAt("Easy"));
      CountCons(problems, SolvedAt("Medium"));
      CountCons(problems, SolvedAt("Hard"));
      if forall k :: 0 <= k < |problems| ==> KnownDifficulty(problems[k]) {
        assert forall k :: 0 <= k < |problems[1..]| ==> KnownDifficulty(problems[1..][k]) by {
          forall k | 0 <= k < |problems[1..]|
            ensures KnownDifficulty(problems[1..][k])
          {
            assert problems[1..][k] == problems[k + 1];
          }
        }
        assert KnownDifficulty(problems[0]);
      }
    }
  }
}

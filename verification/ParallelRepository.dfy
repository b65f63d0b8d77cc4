/** librereuse/db/parallel_regex_cluster_repository: one task per cluster on a thread pool. */
module ParallelRepositories {
  import opened Sequences
  import opened Re2
  import opened Clusters
  import opened ClusterQueries
  import opened ClusterRepositories
  import opened PoolProtocol
  import opened ThreadPools

  /** The first loop: one task per cluster. A task's value is what ClusterMatchQuery.Query
      promises for its cluster. */
  method FanOut(repo: RegexClusterRepository, q: Examples, pool: ThreadPool<seq<Entity>>) returns (futures: seq<Ticket>)
    requires repo.Valid() && pool.Usable()
    modifies pool
    ensures pool.Usable() && Promised(pool.jobs, futures, Answers(repo.re, q, repo.Groups()))
  {
    futures := [];
    var re := repo.re;
    ghost var groups := repo.Groups();
    for i := 0 to |repo.clusters|
      invariant pool.Usable() && Promised(pool.jobs, futures, Answers(re, q, groups[..i]))
    {
      var entities := repo.clusters[i].entities;
      assert Answers(re, q, groups[..i + 1]) == Answers(re, q, groups[..i]) + [Answer(re, q, entities)];
      futures := pool.EnqueueTo(futures, () => Answer(re, q, entities), Answers(re, q, groups[..i]));
    }
    assert groups[..|repo.clusters|] == groups;
  }

  /** The second loop: wait for each future in turn and put its block in front. */
  method Collect(pool: ThreadPool<seq<Entity>>, futures: seq<Ticket>, ghost blocks: seq<seq<Entity>>)
    returns (results: seq<Entity>)
    requires pool.Usable() && Promised(pool.jobs, futures, blocks)
    modifies pool
    ensures pool.Usable() && results == PrependAll(blocks)
  {
    results := [];
    for i := 0 to |futures|
      invariant pool.Usable() && Promised(pool.jobs, futures, blocks)
      invariant results == PrependAll(blocks[..i])
    {
      var block := pool.GetFrom(futures, i, blocks);
      PrefixStep(blocks, i);
      results := block + results;
    }
    assert blocks[..|futures|] == blocks;
  }

  /** For every positive number of workers, every schedule and any finite number of spurious
      wakeups, this returns, and it returns the sequence that the serial query returns
      (DeepQuery). */
  method Query(repo: RegexClusterRepository, query: ClusterMatchQuery, processors: nat, wakeups: nat)
    returns (results: seq<Entity>)
    requires repo.Valid() && processors > 0
    ensures results == AnswerAll(repo.re, query.examples, repo.Groups())
  {
    var pool := new ThreadPool<seq<Entity>>(processors, wakeups);
    var futures := FanOut(repo, query.examples, pool);
    results := Collect(pool, futures, Answers(repo.re, query.examples, repo.Groups()));
    pool.Destroy();
  }
}

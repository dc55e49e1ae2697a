/** When keys lead back to their files: relative seed paths let two files share a path string. */
module IncludeKeys {
  import opened Wrappers
  import opened IncludePaths
  import opened IncludeClosure

  /** `combined[path_to_key[p]] == p` */
  ghost predicate KeysLeadBack(s: Tables) {
    forall p :: p in s.pathToKey ==> s.pathToKey[p] in s.combined && s.combined[s.pathToKey[p]] == p
  }

  lemma {:induction false} AbsoluteSeedsLeadBack(disk: Disk, seeds: seq<Seed>, n: nat)
    requires ValidIndex(disk) && DistinctNames(seeds) && RelativeNames(seeds) && AbsoluteSeeds(disk, seeds) && NormalSeeds(seeds)
    ensures KeysLeadBack(Turns(disk, Begin(seeds), n).s)
  {
    hide Turns, Begin, ValidIndex, DistinctNames, RelativeNames, AbsoluteSeeds, NormalSeeds, HonestSoFar, VisitedRecorded;
    TurnsKeepFaith(disk, seeds, n);
  }

  // ------------------------------------------------ where tracked paths and keys come from

  /** A visited path includes `p`, by a text that is a key. */
  ghost predicate FoundBy(disk: Disk, r: Run, p: Path) {
    exists v, i :: v in r.visited && 0 <= i < |Lines(disk, v)|
      && Lines(disk, v)[i].found == Some(p) && Lines(disk, v)[i].text in r.s.combined
  }

  ghost predicate Traced(disk: Disk, seeds: seq<Seed>, r: Run) {
    forall p :: p in r.s.pathToKey ==> IsSeed(seeds, p) || FoundBy(disk, r, p)
  }

  ghost predicate IsName(seeds: seq<Seed>, k: string) {
    exists i :: 0 <= i < |seeds| && seeds[i].name == k
  }

  /** A key that is no seed's name is the key of its file. */
  ghost predicate OwnKeys(seeds: seq<Seed>, s: Tables) {
    forall k :: k in s.combined ==> IsName(seeds, k) || (s.combined[k] in s.pathToKey && s.pathToKey[s.combined[k]] == k)
  }

  lemma LineOwns(seeds: seq<Seed>, s: Tables, line: Include)
    requires OwnKeys(seeds, s)
    ensures OwnKeys(seeds, TrackLine(s, line))
    ensures s.combined.Keys <= TrackLine(s, line).combined.Keys
    ensures forall p :: p in TrackLine(s, line).pathToKey && p !in s.pathToKey ==>
      line.found == Some(p) && line.text in TrackLine(s, line).combined
  {
    hide IsName, Str;
  }

  /** A path tracked while `lines` were read was found by one of them, and the text is a key. */
  ghost predicate NewByLine(s0: Tables, s: Tables, lines: seq<Include>) {
    forall p :: p in s.pathToKey && p !in s0.pathToKey ==>
      exists i :: 0 <= i < |lines| && lines[i].found == Some(p) && lines[i].text in s.combined
  }

  lemma {:induction false} ReadOwns(seeds: seq<Seed>, s0: Tables, lines: seq<Include>)
    requires OwnKeys(seeds, s0)
    ensures OwnKeys(seeds, ReadAll(s0, lines)) && s0.combined.Keys <= ReadAll(s0, lines).combined.Keys
    ensures NewByLine(s0, ReadAll(s0, lines), lines)
  {
    hide OwnKeys, TrackLine;
    if lines != [] {
      var n := |lines| - 1;
      ReadOwns(seeds, s0, lines[..n]);
      var s, s' := ReadAll(s0, lines[..n]), ReadAll(s0, lines);
      LineOwns(seeds, s, lines[n]);
      forall p | p in s'.pathToKey && p !in s0.pathToKey
        ensures exists i :: 0 <= i < |lines| && lines[i].found == Some(p) && lines[i].text in s'.combined
      {
        if p in s.pathToKey {
          var i :| 0 <= i < n && lines[..n][i].found == Some(p) && lines[..n][i].text in s.combined;
          assert lines[i].found == Some(p) && lines[i].text in s'.combined;
        }
      }
    }
  }

  lemma TracedOn(disk: Disk, seeds: seq<Seed>, r: Run, r': Run)
    requires Traced(disk, seeds, r) && r.visited <= r'.visited && r.s.combined.Keys <= r'.s.combined.Keys
    requires forall p :: p in r'.s.pathToKey && p !in r.s.pathToKey ==> FoundBy(disk, r', p)
    ensures Traced(disk, seeds, r')
  {
    hide IsSeed, Lines;
    forall p | p in r.s.pathToKey && !IsSeed(seeds, p) ensures FoundBy(disk, r', p) {
      var v, i :| v in r.visited && 0 <= i < |Lines(disk, v)|
      && Lines(disk, v)[i].found == Some(p) && Lines(disk, v)[i].text in r.s.combined;
      assert v in r'.visited && Lines(disk, v)[i].text in r'.s.combined;
    }
  }

  lemma ReadFound(disk: Disk, r: Run, s0: Tables, p: Path)
    requires p in r.visited && NewByLine(s0, r.s, Lines(disk, p))
    ensures forall q :: q in r.s.pathToKey && q !in s0.pathToKey ==> FoundBy(disk, r, q)
  {
    hide Lines;
    forall q | q in r.s.pathToKey && q !in s0.pathToKey ensures FoundBy(disk, r, q) {
      var i :| 0 <= i < |Lines(disk, p)| && Lines(disk, p)[i].found == Some(q) && Lines(disk, p)[i].text in r.s.combined;
      assert p in r.visited && Lines(disk, p)[i].found == Some(q);
    }
  }

  lemma TurnTraces(disk: Disk, seeds: seq<Seed>, r: Run)
    requires Traced(disk, seeds, r) && OwnKeys(seeds, r.s)
    ensures Traced(disk, seeds, Turn(disk, r)) && OwnKeys(seeds, Turn(disk, r).s)
  {
    hide Traced, IsFile, Lines, DepKeys, ReadAll, NewByLine, FoundBy, IsName;
    if r.s.queue != [] {
      var p, s, r' := r.s.queue[0].path, Popped(r.s), Turn(disk, r);
      if p !in r.visited && IsFile(disk, p) {
        ReadOwns(seeds, s, Lines(disk, p));
        ReadFound(disk, r', s, p);
      }
      TracedOn(disk, seeds, r, r');
    }
  }

  lemma {:induction false} TurnsTrace(disk: Disk, seeds: seq<Seed>, n: nat)
    ensures Traced(disk, seeds, Turns(disk, Begin(seeds), n)) && OwnKeys(seeds, Turns(disk, Begin(seeds), n).s)
  {
    hide Traced, OwnKeys, Turn, Begin;
    if n == 0 {
      BeginTraces(disk, seeds);
    } else {
      TurnsTrace(disk, seeds, n - 1);
      TurnTraces(disk, seeds, Turns(disk, Begin(seeds), n - 1));
    }
  }

  lemma BeginTraces(disk: Disk, seeds: seq<Seed>)
    ensures Traced(disk, seeds, Begin(seeds)) && OwnKeys(seeds, Begin(seeds).s)
  {
    hide Seeded, FoundBy, PathsEntered, DistinctNames, KeysKnown, IsSeed, Queued;
    SeededEnters(seeds);
    SeededIsQueued(Seeded(seeds), seeds);
    forall k | k in Seeded(seeds).combined ensures IsName(seeds, k) {
      var i :| 0 <= i < |seeds| && seeds[i] == Seed(k, Seeded(seeds).combined[k]);
      assert seeds[i].name == k;
    }
  }
}

/** The persisted player progress: the level reached and the best score. The
    save file is a field holding the last record written, or nothing; JSON
    encoding, the file path and logging are not modelled. */
module Progress {

  datatype Option<T> = None | Some(value: T)

  /** The record written to and read from the save file. */
  datatype PlayerData = PlayerData(currentLevel: int, highScore: int)

  /** The record of a player with no save file. */
  const Fresh := PlayerData(1, 0)

  /** What Load reads: the stored record, or the fresh record when there is
      no save file. */
  function Loaded(file: Option<PlayerData>): (d: PlayerData)
    ensures file.Some? ==> d == file.value
    ensures file.None? ==> d.currentLevel == 1 && d.highScore == 0
  {
    match file
    case Some(data) => data
    case None => Fresh
  }

  /** The high-score rule: a strictly greater score replaces the record. */
  function Best(highScore: int, score: int): (r: int)
    ensures r >= highScore && r >= score
    ensures r == highScore || r == score
    ensures r == score <==> score >= highScore
  {
    if score > highScore then score else highScore
  }

  /** The record after UpdateProgress(level, score). */
  function Step(d: PlayerData, level: int, score: int): (r: PlayerData)
    ensures r.currentLevel == level
    ensures r.highScore >= d.highScore && r.highScore >= score
  {
    PlayerData(level, Best(d.highScore, score))
  }

  /** The record after a sequence of (level, score) updates, in order. */
  function Replay(d: PlayerData, updates: seq<(int, int)>): PlayerData
    decreases |updates|
  {
    if updates == [] then d
    else Replay(Step(d, updates[0].0, updates[0].1), updates[1..])
  }

  /** The greatest of `start` and the scores of `updates`. */
  function MaxScore(start: int, updates: seq<(int, int)>): (r: int)
    ensures r >= start
    ensures forall k :: 0 <= k < |updates| ==> r >= updates[k].1
    ensures r == start || exists k :: 0 <= k < |updates| && r == updates[k].1
    decreases |updates|
  {
    if updates == [] then start
    else
      var rest := MaxScore(Best(start, updates[0].1), updates[1..]);
      assert forall k :: 1 <= k < |updates| ==> updates[k] == updates[1..][k - 1];
      assert rest != Best(start, updates[0].1) ==> exists k :: 0 <= k < |updates| && rest == updates[k].1 by {
        if rest != Best(start, updates[0].1) {
          var j :| 0 <= j < |updates[1..]| && rest == updates[1..][j].1;
          assert rest == updates[j + 1].1;
        }
      }
      rest
  }

  /** After any sequence of updates the high score is the best of the
      starting record and every score played, and the level is the last
      one played. */
  lemma {:induction false} ReplayIsMax(d: PlayerData, updates: seq<(int, int)>)
    ensures Replay(d, updates).highScore == MaxScore(d.highScore, updates)
    ensures updates != [] ==> Replay(d, updates).currentLevel == updates[|updates| - 1].0
    ensures updates == [] ==> Replay(d, updates) == d
    decreases |updates|
  {
    if updates != [] {
      ReplayIsMax(Step(d, updates[0].0, updates[0].1), updates[1..]);
    }
  }

  /** The high score never decreases, whatever is played. */
  lemma HighScoreNeverDecreases(d: PlayerData, updates: seq<(int, int)>)
    ensures Replay(d, updates).highScore >= d.highScore
    ensures forall k :: 0 <= k < |updates| ==> Replay(d, updates).highScore >= updates[k].1
  {
    ReplayIsMax(d, updates);
  }

  /** A lower score after a higher one keeps the higher one: level 3 with
      250 and then level 2 with 100 leave level 2 with a high score of 250. */
  lemma LowerScoreKeepsRecord()
    ensures Replay(Fresh, [(3, 250), (2, 100)]) == PlayerData(2, 250)
  {
    var u: seq<(int, int)> := [(3, 250), (2, 100)];
    assert u[1..] == [(2, 100)] && |u[1..][1..]| == 0;
  }

  class SaveManager {
    var currentLevel: int
    var highScore: int
    /** The save file: the last record written, or None when there is none. */
    var file: Option<PlayerData>

    /** The in-memory progress is what Load would read back. */
    ghost predicate Synced()
      reads this
    {
      Loaded(file) == PlayerData(currentLevel, highScore)
    }

    /** Awake: the progress is loaded from whatever save file exists. */
    constructor (file: Option<PlayerData>)
      ensures this.file == file
      ensures PlayerData(currentLevel, highScore) == Loaded(file)
      ensures Synced()
    {
      this.file := file;
      new;
      Load();
    }

    /** Records the level reached and a score; the score replaces the high
        score only when it is strictly greater. Saves afterwards. */
    method UpdateProgress(level: int, score: int)
      modifies this
      ensures PlayerData(currentLevel, highScore) == Step(old(PlayerData(currentLevel, highScore)), level, score)
      ensures file == Some(PlayerData(currentLevel, highScore))
      ensures Synced()
    {
      currentLevel := level;
      if score > highScore {
        highScore := score;
      }
      Save();
    }

    /** Writes the in-memory progress to the save file. */
    method Save()
      modifies this`file
      ensures file == Some(PlayerData(currentLevel, highScore))
      ensures Synced()
    {
      var data := PlayerData(currentLevel, highScore);
      file := Some(data);
    }

    /** Reads the save file, or starts fresh at level 1 with no high score
        when there is none. */
    method Load()
      modifies this`currentLevel, this`highScore
      ensures PlayerData(currentLevel, highScore) == Loaded(file)
      ensures Synced()
    {
      if file.Some? {
        var data := file.value;
        currentLevel := data.currentLevel;
        highScore := data.highScore;
      } else {
        currentLevel := 1;
        highScore := 0;
      }
    }

    /** Back to level 1 with no high score, saved. */
    method ResetProgress()
      modifies this
      ensures currentLevel == 1 && highScore == 0
      ensures file == Some(Fresh)
      ensures Synced()
    {
      currentLevel := 1;
      highScore := 0;
      Save();
    }
  }

  /** Saving and loading again gives back the progress that was saved, and
      a later update saves on top of it. */
  method SaveThenLoad(m: SaveManager, level: int, score: int) returns (loaded: PlayerData)
    modifies m
    ensures loaded == Step(old(PlayerData(m.currentLevel, m.highScore)), level, score)
    ensures m.file == Some(loaded)
  {
    m.UpdateProgress(level, score);
    m.Load();
    loaded := PlayerData(m.currentLevel, m.highScore);
  }
}

/** The CSV exports of the admin form: `exportSetCsv` writes three tables for
    a whole set (songs, tasks, lyrics), `exportCsv` the same three for one
    song. A task or lyric row carries its song's id and its 1-based position
    within the song. Saving the files is left to the caller. */
module Export {
  import opened Strings
  import opened Options
  import opened FormText
  import opened Songs
  import opened Csv
  import opened Slug

  const SongHeaders: seq<string> := [
    "id", "title_ru", "title_es", "artist", "youtubeId", "cover",
    "level", "themes", "grammar", "vocabulary",
    "culture_tags", "culture_items",
    "age", "containsOtherLanguages", "profanity", "restriction_note"]

  const TaskHeaders: seq<string> := [
    "song_id", "task_index", "type",
    "title_ru", "title_es",
    "instruction_ru", "instruction_es",
    "content", "answer", "wordBank"]

  const LyricHeaders: seq<string> := ["song_id", "line_index", "time", "text"]

  /** `x || fallback` on a string. */
  function OrElse(s: string, fallback: string): string
  {
    if s == "" then fallback else s
  }

  /** The row of one song; list fields are joined with `|`, and the
      restrictions fall back to "all", "false" and "none". */
  function SongRow(song: Song): (row: seq<string>)
    ensures |row| == |SongHeaders|
    ensures row[0] == Key(song.id)
    ensures row[12] != "" && row[14] != ""
    ensures row[13] == (if song.restrictions.containsOtherLanguages then "true" else "false")
  {
    [Key(song.id),
     song.title.ru, song.title.es, song.artist, song.youtubeId, song.cover,
     Join(song.level, "|"), Join(song.themes, "|"), Join(song.grammar, "|"),
     Join(song.vocabulary, "|"),
     Join(song.culture.tags, "|"), Join(song.culture.items, "|"),
     OrElse(song.restrictions.age, "all"),
     if song.restrictions.containsOtherLanguages then "true" else "false",
     OrElse(song.restrictions.profanity, "none"),
     song.restrictions.note]
  }

  /** The content cell: several lines are joined with line feeds. */
  function ContentCell(c: TaskContent): string
  {
    match c
    case Text(s) => s
    case Lines(ls) => Join(ls, "\n")
  }

  /** The row of the task at 0-based position `index` of song `id`. */
  function TaskRow(id: SongId, index: nat, t: Task): (row: seq<string>)
    ensures |row| == |TaskHeaders|
    ensures row[0] == Key(id) && row[1] == NatToString(index + 1)
  {
    [Key(id), NatToString(index + 1), t.kind,
     t.title.ru, t.title.es, t.instruction.ru, t.instruction.es,
     ContentCell(t.content),
     if t.answer.Some? then t.answer.value else "",
     if t.wordBank.Some? then Join(t.wordBank.value, "|") else ""]
  }

  /** The row of the lyric line at 0-based position `index` of song `id`. */
  function LyricRow(id: SongId, index: nat, l: Lyric): (row: seq<string>)
    ensures |row| == |LyricHeaders|
    ensures row[0] == Key(id) && row[1] == NatToString(index + 1)
  {
    [Key(id), NatToString(index + 1), l.time, l.text]
  }

  function SongRows(songs: seq<Song>): (rows: seq<seq<string>>)
    ensures |rows| == |songs|
    ensures forall i :: 0 <= i < |songs| ==> rows[i] == SongRow(songs[i])
  {
    if songs == [] then [] else [SongRow(songs[0])] + SongRows(songs[1..])
  }

  /** One song's task rows, in task order. */
  function TaskRowsOf(song: Song): (rows: seq<seq<string>>)
    ensures |rows| == |song.tasks|
    ensures forall j :: 0 <= j < |rows| ==> rows[j] == TaskRow(song.id, j, song.tasks[j])
  {
    seq(|song.tasks|, j requires 0 <= j < |song.tasks| => TaskRow(song.id, j, song.tasks[j]))
  }

  /** One song's lyric rows, in line order. */
  function LyricRowsOf(song: Song): (rows: seq<seq<string>>)
    ensures |rows| == |song.lyrics|
    ensures forall j :: 0 <= j < |rows| ==> rows[j] == LyricRow(song.id, j, song.lyrics[j])
  {
    seq(|song.lyrics|, j requires 0 <= j < |song.lyrics| => LyricRow(song.id, j, song.lyrics[j]))
  }

  /** The rows of every song of a set, song after song. */
  function AllRows(songs: seq<Song>, rowsOf: Song -> seq<seq<string>>): seq<seq<string>>
  {
    if songs == [] then [] else AllRows(songs[..|songs| - 1], rowsOf) + rowsOf(songs[|songs| - 1])
  }

  /** How many rows the songs of a set have between them. */
  function RowCount(songs: seq<Song>, rowsOf: Song -> seq<seq<string>>): nat
  {
    if songs == [] then 0 else RowCount(songs[..|songs| - 1], rowsOf) + |rowsOf(songs[|songs| - 1])|
  }

  /** The table holds exactly as many rows as the songs have. */
  lemma {:induction false} AllRowsLength(songs: seq<Song>, rowsOf: Song -> seq<seq<string>>)
    ensures |AllRows(songs, rowsOf)| == RowCount(songs, rowsOf)
    decreases |songs|
  {
    if songs != [] {
      AllRowsLength(songs[..|songs| - 1], rowsOf);
    }
  }

  /** Row `j` of song `i` sits right after the rows of the songs before it. */
  lemma {:induction false} AllRowsAt(songs: seq<Song>, rowsOf: Song -> seq<seq<string>>, i: nat, j: nat)
    requires i < |songs| && j < |rowsOf(songs[i])|
    ensures RowCount(songs[..i], rowsOf) + j < |AllRows(songs, rowsOf)|
    ensures AllRows(songs, rowsOf)[RowCount(songs[..i], rowsOf) + j] == rowsOf(songs[i])[j]
    decreases |songs|
  {
    var front := songs[..|songs| - 1];
    AllRowsLength(front, rowsOf);
    if i == |songs| - 1 {
      assert songs[..i] == front;
    } else {
      assert front[i] == songs[i];
      assert front[..i] == songs[..i];
      AllRowsAt(front, rowsOf, i, j);
    }
  }

  /** Adding the next song adds its rows at the end. */
  lemma AllRowsStep(songs: seq<Song>, rowsOf: Song -> seq<seq<string>>, i: nat)
    requires i < |songs|
    ensures AllRows(songs[..i + 1], rowsOf) == AllRows(songs[..i], rowsOf) + rowsOf(songs[i])
  {
    assert songs[..i + 1][..i] == songs[..i];
  }

  /** Every row of the table has `width` fields when every song's rows do. */
  lemma {:induction false} AllRowsWidth(songs: seq<Song>, rowsOf: Song -> seq<seq<string>>, width: nat)
    requires forall i, j :: 0 <= i < |songs| && 0 <= j < |rowsOf(songs[i])| ==> |rowsOf(songs[i])[j]| == width
    ensures forall r :: 0 <= r < |AllRows(songs, rowsOf)| ==> |AllRows(songs, rowsOf)[r]| == width
    decreases |songs|
  {
    if songs != [] {
      var front := songs[..|songs| - 1];
      forall i, j | 0 <= i < |front| && 0 <= j < |rowsOf(front[i])|
        ensures |rowsOf(front[i])[j]| == width
      {
        assert front[i] == songs[i];
      }
      AllRowsWidth(front, rowsOf, width);
    }
  }

  /** The three CSV texts. */
  datatype Tables = Tables(songs: string, tasks: string, lyrics: string)

  /** What `exportSetCsv` writes for a non-empty set. */
  function SetTables(songs: seq<Song>): Tables
  {
    Tables(ToCsv(SongHeaders, SongRows(songs)),
           ToCsv(TaskHeaders, AllRows(songs, TaskRowsOf)),
           ToCsv(LyricHeaders, AllRows(songs, LyricRowsOf)))
  }

  /** The task row of task `j` of song `i` comes after the task rows of the
      songs before it, and carries that song's id and the 1-based index `j + 1`. */
  lemma TaskRowPlace(songs: seq<Song>, i: nat, j: nat)
    requires i < |songs| && j < |songs[i].tasks|
    ensures var rows := AllRows(songs, TaskRowsOf);
      var r := RowCount(songs[..i], TaskRowsOf) + j;
      r < |rows| && rows[r] == TaskRow(songs[i].id, j, songs[i].tasks[j])
      && rows[r][0] == Key(songs[i].id) && rows[r][1] == NatToString(j + 1)
    ensures |AllRows(songs, TaskRowsOf)| == RowCount(songs, TaskRowsOf)
  {
    AllRowsAt(songs, TaskRowsOf, i, j);
    AllRowsLength(songs, TaskRowsOf);
  }

  /** The lyric row of line `j` of song `i` comes after the lyric rows of the
      songs before it, and carries that song's id and the 1-based index `j + 1`. */
  lemma LyricRowPlace(songs: seq<Song>, i: nat, j: nat)
    requires i < |songs| && j < |songs[i].lyrics|
    ensures var rows := AllRows(songs, LyricRowsOf);
      var r := RowCount(songs[..i], LyricRowsOf) + j;
      r < |rows| && rows[r] == LyricRow(songs[i].id, j, songs[i].lyrics[j])
      && rows[r][0] == Key(songs[i].id) && rows[r][1] == NatToString(j + 1)
    ensures |AllRows(songs, LyricRowsOf)| == RowCount(songs, LyricRowsOf)
  {
    AllRowsAt(songs, LyricRowsOf, i, j);
    AllRowsLength(songs, LyricRowsOf);
  }

  lemma TaskRowsWidth(songs: seq<Song>)
    ensures forall r :: 0 <= r < |AllRows(songs, TaskRowsOf)| ==> |AllRows(songs, TaskRowsOf)[r]| >= 1
  {
    forall i, j | 0 <= i < |songs| && 0 <= j < |TaskRowsOf(songs[i])|
      ensures |TaskRowsOf(songs[i])[j]| == |TaskHeaders|
    {
      assert TaskRowsOf(songs[i])[j] == TaskRow(songs[i].id, j, songs[i].tasks[j]);
    }
    AllRowsWidth(songs, TaskRowsOf, |TaskHeaders|);
  }

  lemma LyricRowsWidth(songs: seq<Song>)
    ensures forall r :: 0 <= r < |AllRows(songs, LyricRowsOf)| ==> |AllRows(songs, LyricRowsOf)[r]| >= 1
  {
    forall i, j | 0 <= i < |songs| && 0 <= j < |LyricRowsOf(songs[i])|
      ensures |LyricRowsOf(songs[i])[j]| == |LyricHeaders|
    {
      assert LyricRowsOf(songs[i])[j] == LyricRow(songs[i].id, j, songs[i].lyrics[j]);
    }
    AllRowsWidth(songs, LyricRowsOf, |LyricHeaders|);
  }

  lemma SongTableReadBack(songs: seq<Song>)
    requires songs != []
    ensures ReadCsv(ToCsv(SongHeaders, SongRows(songs))) == [SongHeaders] + SongRows(songs)
  {
    var songRows := SongRows(songs);
    forall r | 0 <= r < |songRows| ensures |songRows[r]| >= 1 {
      assert songRows[r] == SongRow(songs[r]);
    }
    ReadToCsv(SongHeaders, songRows);
  }

  lemma TaskTableReadBack(songs: seq<Song>)
    requires AllRows(songs, TaskRowsOf) != []
    ensures ReadCsv(ToCsv(TaskHeaders, AllRows(songs, TaskRowsOf))) == [TaskHeaders] + AllRows(songs, TaskRowsOf)
  {
    TaskRowsWidth(songs);
    ReadToCsv(TaskHeaders, AllRows(songs, TaskRowsOf));
  }

  lemma LyricTableReadBack(songs: seq<Song>)
    requires AllRows(songs, LyricRowsOf) != []
    ensures ReadCsv(ToCsv(LyricHeaders, AllRows(songs, LyricRowsOf))) == [LyricHeaders] + AllRows(songs, LyricRowsOf)
  {
    LyricRowsWidth(songs);
    ReadToCsv(LyricHeaders, AllRows(songs, LyricRowsOf));
  }

  /** Reading the exported tables back gives the header and every row, field
      for field, for each table that has rows. */
  lemma ExportedTablesReadBack(songs: seq<Song>)
    requires songs != []
    ensures ReadCsv(SetTables(songs).songs) == [SongHeaders] + SongRows(songs)
    ensures AllRows(songs, TaskRowsOf) != [] ==>
      ReadCsv(SetTables(songs).tasks) == [TaskHeaders] + AllRows(songs, TaskRowsOf)
    ensures AllRows(songs, LyricRowsOf) != [] ==>
      ReadCsv(SetTables(songs).lyrics) == [LyricHeaders] + AllRows(songs, LyricRowsOf)
  {
    SongTableReadBack(songs);
    if AllRows(songs, TaskRowsOf) != [] {
      TaskTableReadBack(songs);
    }
    if AllRows(songs, LyricRowsOf) != [] {
      LyricTableReadBack(songs);
    }
  }

  /** An index cell is written bare: decimal digits never need quoting. */
  lemma IndexCellUnquoted(n: nat)
    ensures Escape(NatToString(n)) == NatToString(n)
  {
    var s := NatToString(n);
    forall c | c in s ensures '0' <= c <= '9' {
      var k :| 0 <= k < |s| && s[k] == c;
    }
  }

  /** The first `set.forEach`: for each song in turn, one row per task. */
  method GatherTaskRows(songs: seq<Song>) returns (taskRows: seq<seq<string>>)
    ensures taskRows == AllRows(songs, TaskRowsOf)
  {
    taskRows := [];
    var i := 0;
    while i < |songs|
      invariant 0 <= i <= |songs|
      invariant taskRows == AllRows(songs[..i], TaskRowsOf)
    {
      var song := songs[i];
      var j := 0;
      while j < |song.tasks|
        invariant 0 <= j <= |song.tasks|
        invariant taskRows == AllRows(songs[..i], TaskRowsOf) + TaskRowsOf(song)[..j]
      {
        ghost var rows := TaskRowsOf(song);
        assert rows[..j + 1] == rows[..j] + [rows[j]];
        taskRows := taskRows + [TaskRow(song.id, j, song.tasks[j])];
        j := j + 1;
      }
      assert TaskRowsOf(song)[..j] == TaskRowsOf(song);
      AllRowsStep(songs, TaskRowsOf, i);
      i := i + 1;
    }
    assert songs[..i] == songs;
  }

  /** The second `set.forEach`: for each song in turn, one row per lyric line. */
  method GatherLyricRows(songs: seq<Song>) returns (lyricRows: seq<seq<string>>)
    ensures lyricRows == AllRows(songs, LyricRowsOf)
  {
    lyricRows := [];
    var i := 0;
    while i < |songs|
      invariant 0 <= i <= |songs|
      invariant lyricRows == AllRows(songs[..i], LyricRowsOf)
    {
      var song := songs[i];
      var j := 0;
      while j < |song.lyrics|
        invariant 0 <= j <= |song.lyrics|
        invariant lyricRows == AllRows(songs[..i], LyricRowsOf) + LyricRowsOf(song)[..j]
      {
        ghost var rows := LyricRowsOf(song);
        assert rows[..j + 1] == rows[..j] + [rows[j]];
        lyricRows := lyricRows + [LyricRow(song.id, j, song.lyrics[j])];
        j := j + 1;
      }
      assert LyricRowsOf(song)[..j] == LyricRowsOf(song);
      AllRowsStep(songs, LyricRowsOf, i);
      i := i + 1;
    }
    assert songs[..i] == songs;
  }

  /** `exportSetCsv`: nothing for an empty set; otherwise the song rows, the
      task rows and the lyric rows, written as three CSV texts. */
  method ExportSetCsv(songs: seq<Song>) returns (tables: Option<Tables>)
    ensures songs == [] <==> tables == None
    ensures songs != [] ==> tables == Some(SetTables(songs))
  {
    if |songs| == 0 {
      return None;
    }
    var songRows := SongRows(songs);
    var taskRows := GatherTaskRows(songs);
    var lyricRows := GatherLyricRows(songs);
    tables := Some(Tables(ToCsv(SongHeaders, songRows),
                          ToCsv(TaskHeaders, taskRows),
                          ToCsv(LyricHeaders, lyricRows)));
  }

  /** The base of the file names of `exportCsv`: `song_<id>_<slug>`, the slug
      made from the Spanish title, or the Russian one when that is empty. */
  function FileBase(song: Song): (base: string)
    ensures |base| >= 6 + |Key(song.id)|
    ensures base[..5] == "song_" && base[5..5 + |Key(song.id)|] == Key(song.id)
    ensures base[5 + |Key(song.id)|] == '_'
    ensures var slug := base[6 + |Key(song.id)|..];
      DashesSingle(slug) && (slug == [] || (slug[0] != '-' && slug[|slug| - 1] != '-'))
  {
    var slug := SafeSlug(OrElse(song.title.es, song.title.ru));
    var base := "song_" + Key(song.id) + "_" + slug;
    assert base[6 + |Key(song.id)|..] == slug;
    assert base[5..5 + |Key(song.id)|] == Key(song.id);
    base
  }

  /** `exportCsv`: the three tables of one song, with the base of their file
      names. They are exactly what the songs export writes for the set holding
      only that song. */
  function ExportCsv(song: Song): (exported: (Tables, string))
    ensures exported.0 == SetTables([song])
    ensures exported.1 == FileBase(song)
  {
    assert [song][..0] == [];
    assert AllRows([song], TaskRowsOf) == TaskRowsOf(song);
    assert AllRows([song], LyricRowsOf) == LyricRowsOf(song);
    (Tables(ToCsv(SongHeaders, [SongRow(song)]),
            ToCsv(TaskHeaders, TaskRowsOf(song)),
            ToCsv(LyricHeaders, LyricRowsOf(song))),
     FileBase(song))
  }
}

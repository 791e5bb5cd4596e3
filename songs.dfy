/** The song lesson record and the logic that builds and checks it:
    the record types, the id as the code compares and sorts it
    (`String(id)`, `Number(id) || 0`), the task assembly and the song
    assembly of `buildSong` (over plain field strings), and `validateSong`
    (its error list; marking fields invalid is presentation). */
module Songs {
  import opened Strings
  import opened Options
  import opened FormText
  import opened YouTube

  /** A song id as the code sees it: a finite number, or a value whose
      `Number(id)` is not a finite number (`"abc"`, `NaN`), kept with its
      `String(id)` text. */
  datatype SongId = Num(n: int) | NotNumber(text: string)

  /** `String(id)`: the key under which the store and the merge compare ids. */
  function Key(id: SongId): string
  {
    match id
    case Num(n) => IntToString(n)
    case NotNumber(t) => t
  }

  /** `Number(id) || 0`: the value the merge sorts by. */
  function SortKey(id: SongId): int
  {
    match id
    case Num(n) => n
    case NotNumber(_) => 0
  }

  /** Two numeric ids share a key exactly when they are the same number. */
  lemma NumericKeysDistinguish(m: int, n: int)
    ensures Key(Num(m)) == Key(Num(n)) <==> m == n
  {
    if Key(Num(m)) == Key(Num(n)) {
      IntToStringInjective(m, n);
    }
  }

  /** No two songs share a key: the invariant of a record set. */
  predicate DistinctKeys(songs: seq<Song>)
  {
    forall i, j :: 0 <= i < j < |songs| ==> Key(songs[i].id) != Key(songs[j].id)
  }

  datatype Bilingual = Bilingual(ru: string, es: string)

  /** A task's content: one string, or several lines. */
  datatype TaskContent = Text(s: string) | Lines(lines: seq<string>)

  /** `kind` is the task's `type` (warm-up, gap-fill, grammar, …). */
  datatype Task = Task(
    title: Bilingual,
    kind: string,
    instruction: Bilingual,
    content: TaskContent,
    answer: Option<string>,
    wordBank: Option<seq<string>>)

  datatype Culture = Culture(tags: seq<string>, items: seq<string>)

  datatype Restrictions = Restrictions(
    age: string,
    containsOtherLanguages: bool,
    profanity: string,
    sensitiveTopics: seq<string>,
    note: string)

  datatype Song = Song(
    id: SongId,
    title: Bilingual,
    artist: string,
    youtubeId: string,
    cover: string,
    level: seq<string>,
    themes: seq<string>,
    grammar: seq<string>,
    vocabulary: seq<string>,
    culture: Culture,
    restrictions: Restrictions,
    lyrics: seq<Lyric>,
    pdf: string,
    tasks: seq<Task>)

  // ----- task assembly -----

  /** The raw values of one task editor's fields. */
  datatype TaskFields = TaskFields(
    titleRu: string, titleEs: string, kind: string, answer: string,
    instrRu: string, instrEs: string, content: string, wordBank: string)

  /** `contentLines.length <= 1 ? (contentLines[0] || "") : contentLines`.
      Collapsing loses nothing when no line is empty: the lines come back. */
  function CollapseContent(lines: seq<string>): (c: TaskContent)
    ensures c.Lines? ==> |c.lines| >= 2
    ensures (forall i :: 0 <= i < |lines| ==> lines[i] != "") ==> ContentLines(c) == lines
  {
    if |lines| <= 1 then Text(if lines == [] then "" else lines[0]) else Lines(lines)
  }

  /** The lines a task's content stands for. */
  function ContentLines(c: TaskContent): seq<string>
  {
    match c
    case Text(s) => if s == "" then [] else [s]
    case Lines(ls) => ls
  }

  /** One task from its editor: every field trimmed, the type defaulting to
      "warm-up", the content collapsed, the answer and the word bank present
      only when non-empty. */
  function BuildTask(f: TaskFields): (t: Task)
    ensures t.title == Bilingual(Trim(f.titleRu), Trim(f.titleEs))
    ensures t.instruction == Bilingual(Trim(f.instrRu), Trim(f.instrEs))
    ensures t.kind == if IsBlank(f.kind) then "warm-up" else Trim(f.kind)
    ensures t.answer.Some? <==> !IsBlank(f.answer)
    ensures t.answer.Some? ==> t.answer.value == Trim(f.answer) && IsTrimmed(t.answer.value)
    ensures t.wordBank.Some? <==> LinesToArray(Trim(f.wordBank)) != []
    ensures t.wordBank.Some? ==> t.wordBank.value == LinesToArray(Trim(f.wordBank))
    ensures ContentLines(t.content) == LinesToArray(f.content)
  {
    var answer := Trim(f.answer);
    var wordBank := LinesToArray(Trim(f.wordBank));
    var kind := if Trim(f.kind) == "" then "warm-up" else Trim(f.kind);
    var content := CollapseContent(LinesToArray(f.content));
    Task(Bilingual(Trim(f.titleRu), Trim(f.titleEs)), kind,
         Bilingual(Trim(f.instrRu), Trim(f.instrEs)),
         content,
         if answer == "" then None else Some(answer),
         if wordBank == [] then None else Some(wordBank))
  }

  /** The filter of `buildSong`: a task is kept when a title, an instruction
      or the content says something. An answer or a word bank alone does not
      keep it. */
  predicate HasText(t: Task)
  {
    t.title.ru != "" || t.title.es != "" || t.instruction.ru != "" || t.instruction.es != ""
    || t.content != Text("")
  }

  /** `taskEditors.map(...)`: one task per editor, in order. */
  function BuildEach(editors: seq<TaskFields>): (tasks: seq<Task>)
    ensures |tasks| == |editors|
    ensures forall i :: 0 <= i < |editors| ==> tasks[i] == BuildTask(editors[i])
  {
    if editors == [] then [] else [BuildTask(editors[0])] + BuildEach(editors[1..])
  }

  /** `.filter(t => t.title.ru || … || t.content)`. */
  function WithText(tasks: seq<Task>): (kept: seq<Task>)
    ensures |kept| <= |tasks|
    ensures forall i :: 0 <= i < |kept| ==> HasText(kept[i])
  {
    if tasks == [] then []
    else (if HasText(tasks[0]) then [tasks[0]] else []) + WithText(tasks[1..])
  }

  /** The tasks of a song, from its task editors, in order, empty ones dropped. */
  function BuildTasks(editors: seq<TaskFields>): (tasks: seq<Task>)
    ensures |tasks| <= |editors|
    ensures forall i :: 0 <= i < |tasks| ==> HasText(tasks[i])
  {
    WithText(BuildEach(editors))
  }

  lemma {:induction false} WithTextAppend(a: seq<Task>, b: seq<Task>)
    ensures WithText(a + b) == WithText(a) + WithText(b)
  {
    if a == [] {
      assert a + b == b;
    } else {
      assert (a + b)[1..] == a[1..] + b;
      WithTextAppend(a[1..], b);
    }
  }

  /** Tasks keep the order of their editors. */
  lemma BuildTasksAppend(a: seq<TaskFields>, b: seq<TaskFields>)
    ensures BuildTasks(a + b) == BuildTasks(a) + BuildTasks(b)
  {
    BuildEachAppend(a, b);
    WithTextAppend(BuildEach(a), BuildEach(b));
  }

  lemma {:induction false} BuildEachAppend(a: seq<TaskFields>, b: seq<TaskFields>)
    ensures BuildEach(a + b) == BuildEach(a) + BuildEach(b)
  {
    if a == [] {
      assert a + b == b;
    } else {
      assert (a + b)[0] == a[0] && (a + b)[1..] == a[1..] + b;
      BuildEachAppend(a[1..], b);
    }
  }

  /** An editor yields a task exactly when one of its titles or instructions
      is not blank or its content has a non-blank line. */
  lemma TaskKeptExactlyWhen(f: TaskFields)
    ensures |BuildTasks([f])| == 1 <==>
      !IsBlank(f.titleRu) || !IsBlank(f.titleEs) || !IsBlank(f.instrRu) || !IsBlank(f.instrEs)
      || LinesToArray(f.content) != []
    ensures |BuildTasks([f])| <= 1
  {
    var t := BuildTask(f);
    assert [f][1..] == [];
    var lines := LinesToArray(f.content);
    assert t.content == Text("") <==> lines == [] by {
      if lines != [] && |lines| <= 1 {
        assert lines[0] != "";
      }
    }
  }

  // ----- song assembly -----

  /** The raw values of the song form's fields. */
  datatype SongFields = SongFields(
    id: string, youtubeInput: string, titleRu: string, titleEs: string, artist: string,
    level: string, age: string, otherLang: string, profanity: string, restrNote: string,
    cultureTags: seq<string>, cultureItems: string, vocabulary: string, grammar: string,
    pdfLink: string, themes: string, lyrics: string, tasks: seq<TaskFields>)

  /** `buildSong`. `typedId` is `Number(idVal)` of the id the editor typed,
      used only when that field is not blank; `nextId` is `getNextId()`;
      `urlLookup` stands for the URL parser, as in `ExtractYouTubeId`. */
  function BuildSong(f: SongFields, typedId: SongId, nextId: int,
                     urlLookup: string -> Option<string>): (song: Song)
    ensures song.id == if IsBlank(f.id) then Num(nextId) else typedId
    ensures song.youtubeId == ExtractYouTubeId(f.youtubeInput, urlLookup)
    ensures song.cover == CoverUrl(song.youtubeId)
    ensures song.cover == "" <==> song.youtubeId == ""
    ensures song.level == if IsBlank(f.level) then [] else [Trim(f.level)]
    ensures song.title == Bilingual(Trim(f.titleRu), Trim(f.titleEs))
    ensures song.artist == Trim(f.artist)
    ensures song.themes == CsvToArray(f.themes) && song.grammar == CsvToArray(f.grammar)
    ensures song.vocabulary == LinesToArray(f.vocabulary)
    ensures song.culture == Culture(f.cultureTags, LinesToArray(f.cultureItems))
    ensures song.restrictions == Restrictions(f.age, f.otherLang == "true", f.profanity, [], Trim(f.restrNote))
    ensures song.lyrics == ParseLyrics(f.lyrics)
    ensures song.pdf == Trim(f.pdfLink)
    ensures song.tasks == BuildTasks(f.tasks)
    ensures forall i :: 0 <= i < |song.tasks| ==> HasText(song.tasks[i])
    ensures |song.lyrics| == |LinesToArray(f.lyrics)|
  {
    var youtubeId := ExtractYouTubeId(f.youtubeInput, urlLookup);
    var level := Trim(f.level);
    Song(
      if Trim(f.id) == "" then Num(nextId) else typedId,
      Bilingual(Trim(f.titleRu), Trim(f.titleEs)),
      Trim(f.artist),
      youtubeId,
      CoverUrl(youtubeId),
      if level == "" then [] else [level],
      CsvToArray(f.themes),
      CsvToArray(f.grammar),
      LinesToArray(f.vocabulary),
      Culture(f.cultureTags, LinesToArray(f.cultureItems)),
      Restrictions(f.age, f.otherLang == "true", f.profanity, [], Trim(f.restrNote)),
      ParseLyrics(f.lyrics),
      Trim(f.pdfLink),
      BuildTasks(f.tasks))
  }

  // ----- validation -----

  /** The three rules' failures; `Message` gives the text the form shows. */
  datatype Problem = YouTubeMissing | ArtistMissing | TitleMissing

  function Message(p: Problem): string
  {
    match p
    case YouTubeMissing => "• YouTube: вставь ссылку или ID (обязательно)."
    case ArtistMissing => "• Исполнитель: заполни (обязательно)."
    case TitleMissing => "• Название: заполни хотя бы ru или es (обязательно)."
  }

  /** `.length` counts UTF-16 code units, so a character above U+FFFF counts twice. */
  predicate YouTubeOk(song: Song) { Utf16Length(Trim(song.youtubeId)) >= 6 }
  predicate ArtistOk(song: Song) { |Trim(song.artist)| >= 1 }
  predicate TitleOk(song: Song) { Trim(song.title.ru) != "" || Trim(song.title.es) != "" }

  /** The position of a rule in the fixed order of the checks. */
  function Rank(p: Problem): int
  {
    match p
    case YouTubeMissing => 0
    case ArtistMissing => 1
    case TitleMissing => 2
  }

  /** The failed rules among the three outcomes, in rule order. */
  function Failed(youtubeOk: bool, artistOk: bool, titleOk: bool): (problems: seq<Problem>)
    ensures problems == [] <==> youtubeOk && artistOk && titleOk
    ensures YouTubeMissing in problems <==> !youtubeOk
    ensures ArtistMissing in problems <==> !artistOk
    ensures TitleMissing in problems <==> !titleOk
    ensures |problems| <= 3
    ensures forall i, j :: 0 <= i < j < |problems| ==> Rank(problems[i]) < Rank(problems[j])
  {
    (if youtubeOk then [] else [YouTubeMissing])
    + (if artistOk then [] else [ArtistMissing])
    + (if titleOk then [] else [TitleMissing])
  }

  /** `validateSong`: one problem per failed rule, in the fixed order YouTube,
      artist, title; none at all exactly when the three rules hold. */
  function ValidateSong(song: Song): (problems: seq<Problem>)
    ensures problems == [] <==> YouTubeOk(song) && ArtistOk(song) && TitleOk(song)
    ensures YouTubeMissing in problems <==> !YouTubeOk(song)
    ensures ArtistMissing in problems <==> !ArtistOk(song)
    ensures TitleMissing in problems <==> !TitleOk(song)
    ensures |problems| <= 3
    ensures forall i, j :: 0 <= i < j < |problems| ==> Rank(problems[i]) < Rank(problems[j])
  {
    Failed(YouTubeOk(song), ArtistOk(song), TitleOk(song))
  }

  /** The messages the form shows for a list of problems, in the same order. */
  function Messages(problems: seq<Problem>): (messages: seq<string>)
    ensures |messages| == |problems|
    ensures forall i :: 0 <= i < |problems| ==> messages[i] == Message(problems[i])
  {
    if problems == [] then [] else [Message(problems[0])] + Messages(problems[1..])
  }

  /** On a song built from the form, validity depends on exactly three things:
      the resolved YouTube id has at least six characters once trimmed, the
      artist field is not blank, and one of the two title fields is not blank.
      Nothing else in the form is required. */
  lemma BuiltSongValidExactlyWhen(f: SongFields, typedId: SongId, nextId: int,
                                  urlLookup: string -> Option<string>)
    ensures ValidateSong(BuildSong(f, typedId, nextId, urlLookup)) == [] <==>
      Utf16Length(Trim(ExtractYouTubeId(f.youtubeInput, urlLookup))) >= 6
      && !IsBlank(f.artist)
      && (!IsBlank(f.titleRu) || !IsBlank(f.titleEs))
  {
    var song := BuildSong(f, typedId, nextId, urlLookup);
    assert Trim(song.artist) == song.artist;
    assert Trim(song.title.ru) == song.title.ru;
    assert Trim(song.title.es) == song.title.es;
  }
}

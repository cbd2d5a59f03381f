/** The migration catalogue: an ordered list of migrations, and the applied history checked against it. */
module MigrationCatalog {
  import opened Optional
  import D = Decimal
  import T = Texts

  datatype Migration = Migration(name: string, millis: int, hash: string)

  datatype Applied = Applied(hash: string, createdAt: int, name: Option<string>)

  datatype Error =
    | NoMigrations
    | InvalidName(name: string)
    | InvalidTimestamp(name: string)
    | DuplicateVersion(name: string)
    | NotOrdered(name: string)
    | InvalidChecksum(name: string)
    | MissingLocally(name: string)
    | ChecksumChanged(name: string)
    | VersionChanged(name: string)
    | Reordered(name: string)
    | InsertedBefore(name: string)
    | DuplicateName(name: string)
    | DuplicateApplied(name: string)

  // ---- What a catalogue is ------------------------------------------------

  predicate IsWordChar(c: char) {
    'a' <= c <= 'z' || '0' <= c <= '9'
  }

  /** Fourteen digits, then words of small letters and digits, each after one underscore. */
  predicate IsName(name: string) {
    && |name| > 15
    && (forall i :: 0 <= i < 14 ==> '0' <= name[i] <= '9')
    && name[14] == '_' && name[|name| - 1] != '_'
    && (forall i :: 14 <= i < |name| ==> IsWordChar(name[i]) || name[i] == '_')
    && (forall i :: 14 <= i < |name| - 1 ==> name[i] != '_' || name[i + 1] != '_')
  }

  predicate IsHash(hash: string) {
    |hash| == 64 && forall i :: 0 <= i < |hash| ==> '0' <= hash[i] <= '9' || 'a' <= hash[i] <= 'f'
  }

  /** The time stamp a migration's name begins with. */
  function Version(name: string): string
    requires IsName(name)
  {
    name[..14]
  }

  /** `stamp` writes a time in milliseconds as fourteen digits of the UTC calendar. */
  predicate ValidMigration(stamp: int -> string, m: Migration) {
    IsName(m.name) && stamp(m.millis) == Version(m.name) && IsHash(m.hash)
  }

  /** Valid migrations, strictly increasing in name, time and version. */
  ghost predicate Ordered(stamp: int -> string, migrations: seq<Migration>) {
    && (forall i :: 0 <= i < |migrations| ==> ValidMigration(stamp, migrations[i]))
    && (forall i, j :: 0 <= i < j < |migrations| ==> Before(migrations[i], migrations[j]))
  }

  predicate Before(a: Migration, b: Migration)
    requires IsName(a.name) && IsName(b.name)
  {
    T.Less(a.name, b.name) && a.millis < b.millis && Version(a.name) != Version(b.name)
  }

  // ---- What names and checksums are, as the patterns write them -----------

  const DIGITS := "0123456789"
  const LETTERS := "abcdefghijklmnopqrstuvwxyz"

  lemma DigitExactly(c: char)
    ensures '0' <= c <= '9' <==> c in DIGITS
  {
    if '0' <= c <= '9' {
      assert DIGITS[c as int - '0' as int] == c;
    }
  }

  lemma LetterExactly(c: char)
    ensures 'a' <= c <= 'z' <==> c in LETTERS
  {
    if 'a' <= c <= 'z' {
      assert LETTERS[c as int - 'a' as int] == c;
    }
  }

  lemma WordCharExactly(c: char)
    ensures IsWordChar(c) <==> c in LETTERS || c in DIGITS
    ensures '0' <= c <= '9' <==> c in DIGITS
  {
    DigitExactly(c);
    LetterExactly(c);
    hide DIGITS, LETTERS;
  }

  predicate AllIn(s: string, chars: string) {
    forall i :: 0 <= i < |s| ==> s[i] in chars
  }

  /** One or more small letters and digits. */
  predicate IsWord(s: string) {
    s != "" && forall i :: 0 <= i < |s| ==> s[i] in LETTERS || s[i] in DIGITS
  }

  /** Each word after an underscore. */
  function Underscored(words: seq<string>): string {
    if words == [] then "" else "_" + words[0] + Underscored(words[1..])
  }

  ghost predicate AreWords(words: seq<string>) {
    words != [] && forall i :: 0 <= i < |words| ==> IsWord(words[i])
  }

  ghost predicate Spells(name: string, version: string, words: seq<string>) {
    |version| == 14 && AllIn(version, DIGITS) && AreWords(words) && name == version + Underscored(words)
  }

  /** What follows the digits: no underscore at the end, none after another. */
  predicate IsTail(t: string) {
    && |t| > 1 && t[0] == '_' && t[|t| - 1] != '_'
    && (forall i :: 0 <= i < |t| ==> IsWordChar(t[i]) || t[i] == '_')
    && (forall i :: 0 <= i < |t| - 1 ==> t[i] != '_' || t[i + 1] != '_')
  }

  lemma WordReads(s: string)
    ensures IsWord(s) <==> s != "" && forall i :: 0 <= i < |s| ==> IsWordChar(s[i])
  {
    forall i | 0 <= i < |s| ensures IsWordChar(s[i]) <==> s[i] in LETTERS || s[i] in DIGITS {
      WordCharExactly(s[i]);
    }
    hide IsWordChar;
  }

  /** A word holds no underscore. */
  lemma WordTail(word: string)
    requires IsWord(word)
    ensures IsTail("_" + word)
  {
    WordReads(word);
    hide IsWord;
  }

  lemma TailsJoin(s: string, t: string)
    requires IsTail(s) && IsTail(t)
    ensures IsTail(s + t)
  {
    hide IsWordChar;
    var u := s + t;
    forall i | 0 <= i < |u| ensures IsWordChar(u[i]) || u[i] == '_' {
      assert u[i] == if i < |s| then s[i] else t[i - |s|];
    }
    forall i | 0 <= i < |u| - 1 ensures u[i] != '_' || u[i + 1] != '_' {
      if i >= |s| {
        assert u[i] == t[i - |s|] && u[i + 1] == t[i - |s| + 1];
      }
    }
  }

  lemma {:induction false} UnderscoredIsTail(words: seq<string>)
    requires AreWords(words)
    ensures IsTail(Underscored(words))
  {
    hide IsWord, IsTail;
    WordTail(words[0]);
    if |words| == 1 {
      assert Underscored(words) == "_" + words[0];
    } else {
      UnderscoredIsTail(words[1..]);
      TailsJoin("_" + words[0], Underscored(words[1..]));
    }
  }

  lemma {:induction false} TailSplits(t: string) returns (words: seq<string>)
    requires IsTail(t)
    ensures AreWords(words) && Underscored(words) == t
    decreases |t|
  {
    var k := 1;
    while k < |t| && t[k] != '_'
      invariant 1 <= k <= |t| && forall i :: 1 <= i < k ==> t[i] != '_'
    {
      k := k + 1;
    }
    var word := t[1..k];
    assert t[0] == '_' && t[1] != '_';
    assert forall i :: 0 <= i < |word| ==> word[i] == t[i + 1];
    WordReads(word);
    hide IsWord, IsWordChar;
    assert t == "_" + word + t[k..];
    if k == |t| {
      words := [word];
      assert Underscored([word]) == "_" + word + Underscored([]);
    } else {
      var more := TailSplits(t[k..]);
      words := [word] + more;
      assert words[1..] == more;
    }
  }

  /** A name is fourteen digits and one or more words, each after an underscore: the pattern, and nothing else. */
  lemma NameExactly(name: string)
    ensures IsName(name) <==> exists version, words :: Spells(name, version, words)
    ensures IsName(name) ==> forall version, words :: Spells(name, version, words) ==> version == Version(name)
  {
    hide IsWordChar, IsName, IsTail, AreWords, Underscored;
    if version, words :| Spells(name, version, words) {
      UnderscoredIsTail(words);
      NameOfTail(version, Underscored(words));
    }
    if IsName(name) {
      TailOfName(name);
      var words := TailSplits(name[14..]);
      assert name == name[..14] + name[14..];
      assert Spells(name, name[..14], words);
    }
    forall version, words | Spells(name, version, words) ensures version == name[..14] {
    }
  }

  lemma NameOfTail(version: string, tail: string)
    requires |version| == 14 && AllIn(version, DIGITS) && IsTail(tail)
    ensures IsName(version + tail)
  {
    var name := version + tail;
    assert forall i :: 14 <= i < |name| ==> name[i] == tail[i - 14];
    forall i | 0 <= i < 14 ensures '0' <= name[i] <= '9' {
      WordCharExactly(version[i]);
    }
    hide IsWordChar;
  }

  lemma TailOfName(name: string)
    requires IsName(name)
    ensures |name| > 15 && IsTail(name[14..]) && AllIn(name[..14], DIGITS)
  {
    var tail := name[14..];
    assert forall i :: 0 <= i < |tail| ==> tail[i] == name[i + 14];
    forall i | 0 <= i < 14 ensures name[..14][i] in DIGITS {
      WordCharExactly(name[i]);
    }
    hide IsWordChar;
  }

  /** A checksum is sixty-four hexadecimal digits in small letters. */
  lemma HashExactly(hash: string)
    ensures IsHash(hash) <==> |hash| == 64 && AllIn(hash, "0123456789abcdef")
  {
    forall i | 0 <= i < |hash| ensures '0' <= hash[i] <= '9' || 'a' <= hash[i] <= 'f' <==> hash[i] in "0123456789abcdef" {
      HexExactly(hash[i]);
    }
  }

  lemma HexExactly(c: char)
    ensures '0' <= c <= '9' || 'a' <= c <= 'f' <==> c in "0123456789abcdef"
  {
    var hex := "0123456789abcdef";
    if '0' <= c <= '9' {
      assert hex[c as int - '0' as int] == c;
    }
    if 'a' <= c <= 'f' {
      assert hex[10 + c as int - 'a' as int] == c;
    }
  }

  // ---- The order of names -------------------------------------------------

  lemma VersionDigits(name: string)
    requires IsName(name)
    ensures D.AllDigits(Version(name)) && |Version(name)| == 14
  {
  }

  /** Of two numerals of one length, the one with the smaller digit where they first differ denotes the smaller number. */
  lemma {:induction false} FirstDigitDecides(s: string, t: string, k: nat)
    requires D.AllDigits(s) && D.AllDigits(t) && |s| == |t| && k < |s| && s[..k] == t[..k] && s[k] < t[k]
    ensures D.Value(s) < D.Value(t)
  {
    var n := |s| - 1;
    if k == n {
      assert D.DigitValue(s[n]) < D.DigitValue(t[n]);
    } else {
      assert s[..n][..k] == s[..k] && t[..n][..k] == t[..k];
      FirstDigitDecides(s[..n], t[..n], k);
    }
  }

  lemma FirstDifference(s: string, t: string) returns (k: nat)
    requires |s| == |t| && s != t
    ensures k < |s| && s[..k] == t[..k] && s[k] != t[k]
  {
    k := 0;
    while k < |s| && s[k] == t[k]
      invariant k <= |s| && s[..k] == t[..k]
    {
      assert s[..k + 1] == s[..k] + [s[k]] && t[..k + 1] == t[..k] + [t[k]];
      k := k + 1;
    }
    assert s[..|s|] == s && t[..|t|] == t;
  }

  /** Names with different versions are ordered as the numbers their fourteen digits denote. */
  lemma NamesFollowVersions(a: string, b: string)
    requires IsName(a) && IsName(b) && Version(a) != Version(b)
    ensures T.Less(a, b) <==> D.Value(Version(a)) < D.Value(Version(b))
    ensures D.Value(Version(a)) != D.Value(Version(b))
  {
    VersionDigits(a);
    VersionDigits(b);
    var v, w := Version(a), Version(b);
    var k := FirstDifference(v, w);
    assert a[..k] == v[..k] && b[..k] == w[..k] && a[k] == v[k] && b[k] == w[k];
    T.PlainOrder(a, b, k);
    if v[k] < w[k] {
      FirstDigitDecides(v, w, k);
    } else {
      FirstDigitDecides(w, v, k);
    }
  }

  /** The version number and the time of one migration are both smaller than the other's. */
  predicate Ascends(a: Migration, b: Migration) {
    IsName(a.name) && IsName(b.name) && D.Value(Version(a.name)) < D.Value(Version(b.name)) && a.millis < b.millis
  }

  /** A catalogue is ordered exactly when its migrations are valid and their version numbers and times ascend. */
  lemma OrderedExactly(stamp: int -> string, migrations: seq<Migration>)
    ensures Ordered(stamp, migrations) <==>
            && (forall i :: 0 <= i < |migrations| ==> ValidMigration(stamp, migrations[i]))
            && (forall i, j :: 0 <= i < j < |migrations| ==> Ascends(migrations[i], migrations[j]))
  {
    if forall i :: 0 <= i < |migrations| ==> ValidMigration(stamp, migrations[i]) {
      forall i, j | 0 <= i < j < |migrations|
        ensures IsName(migrations[i].name) && IsName(migrations[j].name)
        ensures Before(migrations[i], migrations[j]) <==> Ascends(migrations[i], migrations[j])
      {
        var a, b := migrations[i], migrations[j];
        assert ValidMigration(stamp, a) && ValidMigration(stamp, b);
        hide IsName, IsHash, T.Less, D.Value;
        if Version(a.name) != Version(b.name) {
          NamesFollowVersions(a.name, b.name);
        }
      }
      hide IsName, IsHash, T.Less, D.Value, Before, Ascends;
    }
  }

  /** Valid migrations are accepted as a new catalogue exactly when their version numbers and times ascend. */
  lemma AcceptsExactlyAscending(stamp: int -> string, migrations: seq<Migration>)
    requires migrations != [] && forall i :: 0 <= i < |migrations| ==> ValidMigration(stamp, migrations[i])
    ensures Accepts(stamp, migrations, []) <==>
            forall i, j :: 0 <= i < j < |migrations| ==> Ascends(migrations[i], migrations[j])
  {
    OrderedExactly(stamp, migrations);
    assert Named([]) == [] && Places(migrations, Named([]), []) && Gapless([]);
    hide Ordered, IsName, IsHash, D.Value, Ascends;
  }

  /** The loop's own test against the names and versions seen and the migration just before. */
  lemma {:induction false} BeforeFromPrevious(stamp: int -> string, migrations: seq<Migration>, next: Migration)
    requires Ordered(stamp, migrations) && migrations != [] && IsName(next.name)
    requires T.Less(migrations[|migrations| - 1].name, next.name) && migrations[|migrations| - 1].millis < next.millis
    requires forall i :: 0 <= i < |migrations| ==> Version(migrations[i].name) != Version(next.name)
    ensures forall i :: 0 <= i < |migrations| ==> Before(migrations[i], next)
  {
    var last := |migrations| - 1;
    forall i | 0 <= i < |migrations| ensures Before(migrations[i], next) {
      if i < last {
        assert Before(migrations[i], migrations[last]);
        T.LeqTransitive(migrations[i].name, migrations[last].name, next.name);
      }
    }
  }

  // ---- The applied history ------------------------------------------------

  /** The row records exactly this migration. */
  predicate Records(row: Applied, m: Migration) {
    row.name == Some(m.name) && row.hash == m.hash && row.createdAt == m.millis
  }

  function Named(applied: seq<Applied>): seq<Applied> {
    if applied == [] then [] else
      Named(applied[..|applied| - 1]) + if applied[|applied| - 1].name.Some? then [applied[|applied| - 1]] else []
  }

  lemma {:induction false} NamedRows(applied: seq<Applied>)
    ensures forall i :: 0 <= i < |Named(applied)| ==> Named(applied)[i].name.Some? && Named(applied)[i] in applied
    ensures AllNamed(applied) ==> Named(applied) == applied
  {
    if applied != [] {
      NamedRows(applied[..|applied| - 1]);
      assert applied == applied[..|applied| - 1] + [applied[|applied| - 1]];
    }
  }

  lemma NamedStep(applied: seq<Applied>, i: nat)
    requires i < |applied|
    ensures Named(applied[..i + 1]) == if applied[i].name.Some? then Named(applied[..i]) + [applied[i]] else Named(applied[..i])
  {
    assert applied[..i + 1][..i] == applied[..i];
  }

  predicate AllNamed(applied: seq<Applied>) {
    forall i :: 0 <= i < |applied| ==> applied[i].name.Some?
  }

  /** Places in the catalogue, one for each row, in strictly increasing order. */
  ghost predicate Places(migrations: seq<Migration>, rows: seq<Applied>, places: seq<nat>) {
    && |places| == |rows|
    && (forall i :: 0 <= i < |rows| ==> places[i] < |migrations| && Records(rows[i], migrations[places[i]]))
    && (forall i, j :: 0 <= i < j < |rows| ==> places[i] < places[j])
  }

  /** No migration up to the last applied one is left out. */
  ghost predicate Gapless(places: seq<nat>) {
    forall k, i :: 0 <= i < |places| && 0 <= k <= places[i] ==> k in places
  }

  /**
   * What the program accepts: an ordered, nonempty catalogue whose named applied rows record
   * migrations in catalogue order, without gaps unless some row has no name.
   */
  ghost predicate Accepts(stamp: int -> string, migrations: seq<Migration>, applied: seq<Applied>) {
    && migrations != [] && Ordered(stamp, migrations)
    && exists places :: Places(migrations, Named(applied), places) && (AllNamed(applied) ==> Gapless(places))
  }

  /** The rows record the first migrations of the catalogue, one by one. */
  ghost predicate IsPrefix(migrations: seq<Migration>, applied: seq<Applied>) {
    |applied| <= |migrations| && forall i :: 0 <= i < |applied| ==> Records(applied[i], migrations[i])
  }

  /** Increasing places without gaps are the numbers from zero. */
  lemma {:induction false} GaplessIsIdentity(places: seq<nat>, i: nat)
    requires forall a, b :: 0 <= a < b < |places| ==> places[a] < places[b]
    requires Gapless(places) && i < |places|
    ensures places[i] == i
  {
    if i == 0 {
      assert 0 in places;
    } else {
      GaplessIsIdentity(places, i - 1);
      assert i <= places[i];
      assert i in places;
      var j :| 0 <= j < |places| && places[j] == i;
      assert j >= i;
    }
  }

  lemma GaplessIsPrefix(migrations: seq<Migration>, rows: seq<Applied>, places: seq<nat>)
    requires Places(migrations, rows, places) && Gapless(places)
    ensures IsPrefix(migrations, rows)
  {
    hide Records, Gapless;
    forall i | 0 <= i < |rows| ensures places[i] == i {
      GaplessIsIdentity(places, i);
    }
    if rows != [] {
      assert places[|rows| - 1] == |rows| - 1;
    }
  }

  lemma PrefixIsGapless(migrations: seq<Migration>, rows: seq<Applied>) returns (places: seq<nat>)
    requires IsPrefix(migrations, rows)
    ensures Places(migrations, rows, places) && Gapless(places)
  {
    hide Records;
    places := seq(|rows|, (i: nat) => i);
    forall k, i | 0 <= i < |places| && 0 <= k <= places[i] ensures k in places {
      assert places[k] == k;
    }
  }

  /** A history with all names is accepted exactly when it is a prefix of the catalogue. */
  lemma AcceptsExactlyPrefixes(stamp: int -> string, migrations: seq<Migration>, applied: seq<Applied>)
    requires migrations != [] && Ordered(stamp, migrations) && AllNamed(applied)
    ensures Accepts(stamp, migrations, applied) <==> IsPrefix(migrations, applied)
  {
    NamedRows(applied);
    hide Ordered, Places, Gapless, IsPrefix;
    if Accepts(stamp, migrations, applied) {
      var places :| Places(migrations, Named(applied), places) && Gapless(places);
      GaplessIsPrefix(migrations, applied, places);
    }
    if IsPrefix(migrations, applied) {
      var places := PrefixIsGapless(migrations, applied);
    }
  }

  /** Applying the next pending migrations keeps the catalogue accepted, all the way to the end. */
  lemma PendingKeepsAccepted(stamp: int -> string, migrations: seq<Migration>, applied: seq<Applied>, n: nat)
    requires Accepts(stamp, migrations, applied) && AllNamed(applied) && |applied| <= n <= |migrations|
    ensures Accepts(stamp, migrations, applied + Rows(migrations[|applied|..n]))
  {
    hide Ordered, IsPrefix, AllNamed, Named;
    AcceptsExactlyPrefixes(stamp, migrations, applied);
    LongerPrefix(migrations, applied, n);
    AcceptsExactlyPrefixes(stamp, migrations, applied + Rows(migrations[|applied|..n]));
  }

  lemma LongerPrefix(migrations: seq<Migration>, applied: seq<Applied>, n: nat)
    requires IsPrefix(migrations, applied) && |applied| <= n <= |migrations|
    ensures IsPrefix(migrations, applied + Rows(migrations[|applied|..n])) && AllNamed(applied + Rows(migrations[|applied|..n]))
  {
    var more := Rows(migrations[|applied|..n]);
    forall i | 0 <= i < n ensures Records((applied + more)[i], migrations[i]) {
      if i >= |applied| {
        assert Records(more[i - |applied|], migrations[|applied|..n][i - |applied|]);
      }
    }
  }

  /** The rows that applying migrations in order records. */
  function Rows(migrations: seq<Migration>): (rows: seq<Applied>)
    ensures |rows| == |migrations| && forall i :: 0 <= i < |rows| ==> Records(rows[i], migrations[i])
  {
    seq(|migrations|, i requires 0 <= i < |migrations| => Applied(migrations[i].hash, migrations[i].millis, Some(migrations[i].name)))
  }

  // ---- The validation -----------------------------------------------------

  predicate RecordedAt(migrations: seq<Migration>, applied: seq<Applied>, i: nat, k: nat)
    requires i < |applied| && k < |migrations|
  {
    applied[i].name == Some(migrations[k].name)
  }

  /** What an error says of the catalogue or of a row. */
  ghost predicate Explains(stamp: int -> string, migrations: seq<Migration>, applied: seq<Applied>, error: Error) {
    match error
    case NoMigrations => migrations == []
    case InvalidName(name) => exists m :: m in migrations && m.name == name && !IsName(name)
    case InvalidTimestamp(name) => exists m :: m in migrations && m.name == name && IsName(name) && stamp(m.millis) != Version(name)
    case InvalidChecksum(name) => exists m :: m in migrations && m.name == name && !IsHash(m.hash)
    case DuplicateName(name) => exists i, j :: 0 <= i < j < |migrations| && migrations[i].name == name == migrations[j].name
    case DuplicateVersion(name) =>
      exists i, j :: 0 <= i < j < |migrations| && IsName(migrations[i].name) && migrations[j].name == name && IsName(name)
                     && Version(migrations[i].name) == Version(name)
    case NotOrdered(name) =>
      exists i :: 0 < i < |migrations| && migrations[i].name == name
                  && (!T.Less(migrations[i - 1].name, name) || migrations[i].millis <= migrations[i - 1].millis)
    case MissingLocally(name) => (exists row :: row in applied && row.name == Some(name)) && forall m :: m in migrations ==> m.name != name
    case ChecksumChanged(name) =>
      exists row, m :: row in applied && m in migrations && row.name == Some(name) == Some(m.name) && row.hash != m.hash
    case VersionChanged(name) =>
      exists row, m :: row in applied && m in migrations && row.name == Some(name) == Some(m.name) && row.createdAt != m.millis
    case DuplicateApplied(name) => exists i, j :: 0 <= i < j < |applied| && applied[i].name == Some(name) == applied[j].name
    case Reordered(name) =>
      exists i, j, k, l :: 0 <= i < j < |applied| && 0 <= k < l < |migrations| && migrations[k].name == name
                           && RecordedAt(migrations, applied, i, l) && RecordedAt(migrations, applied, j, k)
    case InsertedBefore(name) =>
      AllNamed(applied) && (exists m :: m in migrations && m.name == name) && forall row :: row in applied ==> row.name != Some(name)
  }

  ghost predicate NamesValid(migrations: seq<Migration>) {
    forall i :: 0 <= i < |migrations| ==> IsName(migrations[i].name)
  }

  /** The first thing wrong with a migration, judged by itself and against those before it. */
  ghost function Wrong(stamp: int -> string, before: seq<Migration>, m: Migration): Option<Error>
    requires NamesValid(before)
  {
    if !IsName(m.name) then Some(InvalidName(m.name))
    else if stamp(m.millis) != Version(m.name) then Some(InvalidTimestamp(m.name))
    else if exists k :: 0 <= k < |before| && before[k].name == m.name then Some(DuplicateName(m.name))
    else if exists k :: 0 <= k < |before| && Version(before[k].name) == Version(m.name) then Some(DuplicateVersion(m.name))
    else if before != [] && !Follows(before[|before| - 1], m) then Some(NotOrdered(m.name))
    else if !IsHash(m.hash) then Some(InvalidChecksum(m.name))
    else None
  }

  /** The migration at this place is the first with something wrong, and this is it. */
  ghost predicate FirstWrong(stamp: int -> string, migrations: seq<Migration>, i: nat, error: Error) {
    && i < |migrations| && Ordered(stamp, migrations[..i]) && NamesValid(migrations[..i])
    && Wrong(stamp, migrations[..i], migrations[i]) == Some(error)
  }

  /** The tests of a migration, in their order; each error exactly where its test is the first to fail. */
  lemma WrongAnswers(stamp: int -> string, before: seq<Migration>, m: Migration)
    requires NamesValid(before)
    ensures var wrong, name := Wrong(stamp, before, m), m.name;
            var dated := IsName(name) && stamp(m.millis) == name[..14];
            var renamed := exists k :: 0 <= k < |before| && before[k].name == name;
            var reused := dated && exists k :: 0 <= k < |before| && before[k].name[..14] == name[..14];
            var follows := before == [] || (T.Less(before[|before| - 1].name, name) && before[|before| - 1].millis < m.millis);
            && (wrong == Some(InvalidName(name)) <==> !IsName(name))
            && (wrong == Some(InvalidTimestamp(name)) <==> IsName(name) && !dated)
            && (wrong == Some(DuplicateName(name)) <==> dated && renamed)
            && (wrong == Some(DuplicateVersion(name)) <==> dated && !renamed && reused)
            && (wrong == Some(NotOrdered(name)) <==> dated && !renamed && !reused && !follows)
            && (wrong == Some(InvalidChecksum(name)) <==> dated && !renamed && !reused && follows && !IsHash(m.hash))
            && (wrong.None? <==> dated && !renamed && !reused && follows && IsHash(m.hash))
  {
    hide IsWordChar, IsHash, T.Less;
    assert forall k :: 0 <= k < |before| ==> Version(before[k].name) == before[k].name[..14];
  }

  predicate Follows(previous: Migration, m: Migration) {
    T.Less(previous.name, m.name) && previous.millis < m.millis
  }

  /** A migration with nothing wrong extends an ordered catalogue, and one with something wrong does not. */
  lemma OrderedStep(stamp: int -> string, before: seq<Migration>, m: Migration)
    requires Ordered(stamp, before)
    ensures NamesValid(before)
    ensures Wrong(stamp, before, m).None? <==> Ordered(stamp, before + [m])
  {
    hide IsName, IsHash, Version;
    var longer := before + [m];
    if Wrong(stamp, before, m).None? {
      if before != [] {
        BeforeFromPrevious(stamp, before, m);
      }
    } else if Ordered(stamp, longer) {
      assert longer[|before|] == m && ValidMigration(stamp, m);
      forall k | 0 <= k < |before| ensures Before(before[k], m) {
        assert longer[k] == before[k];
      }
      assert false;
    }
  }

  lemma OrderedPrefix(stamp: int -> string, migrations: seq<Migration>, i: nat)
    requires Ordered(stamp, migrations) && i <= |migrations|
    ensures Ordered(stamp, migrations[..i])
  {
    hide ValidMigration, Before;
  }

  lemma WrongExplains(stamp: int -> string, migrations: seq<Migration>, applied: seq<Applied>, i: nat)
    requires i < |migrations| && NamesValid(migrations[..i]) && Wrong(stamp, migrations[..i], migrations[i]).Some?
    ensures Explains(stamp, migrations, applied, Wrong(stamp, migrations[..i], migrations[i]).value)
  {
    hide IsName, IsHash, Version, T.Less;
    var before, m := migrations[..i], migrations[i];
    assert m in migrations;
    assert forall k :: 0 <= k < i ==> before[k] == migrations[k];
  }

  /** The first loop. */
  method ValidateOrder(stamp: int -> string, migrations: seq<Migration>, ghost applied: seq<Applied>) returns (error: Option<Error>)
    ensures error.None? <==> Ordered(stamp, migrations)
    ensures error.Some? ==> Explains(stamp, migrations, applied, error.value)
    ensures error.Some? ==> exists i: nat :: FirstWrong(stamp, migrations, i, error.value)
  {
    hide Ordered, IsName, IsHash, T.Less, Explains;
    var names: set<string>, versions: set<string> := {}, {};
    var previous: Option<Migration> := None;
    assert Ordered(stamp, migrations[..0]) by { NothingIsOrdered(stamp); }
    for i := 0 to |migrations|
      invariant Ordered(stamp, migrations[..i]) && NamesValid(migrations[..i])
      invariant forall n :: n in names <==> exists k :: 0 <= k < i && migrations[..i][k].name == n
      invariant forall v :: v in versions <==> exists k :: 0 <= k < i && Version(migrations[..i][k].name) == v
      invariant previous == if i == 0 then None else Some(migrations[i - 1])
    {
      var m := migrations[i];
      var wrong := Check(stamp, migrations[..i], names, versions, previous, m);
      OrderedStep(stamp, migrations[..i], m);
      assert migrations[..i] + [m] == migrations[..i + 1];
      if wrong.Some? {
        WrongExplains(stamp, migrations, applied, i);
        assert FirstWrong(stamp, migrations, i, wrong.value);
        if Ordered(stamp, migrations) {
          OrderedPrefix(stamp, migrations, i + 1);
        }
        return wrong;
      }
      assert IsName(m.name);
      names, versions, previous := names + {m.name}, versions + {Version(m.name)}, Some(m);
    }
    assert migrations[..|migrations|] == migrations;
    return None;
  }

  lemma NothingIsOrdered(stamp: int -> string)
    ensures Ordered(stamp, [])
  {
  }

  method Check(stamp: int -> string, ghost before: seq<Migration>, names: set<string>, versions: set<string>,
               previous: Option<Migration>, m: Migration) returns (wrong: Option<Error>)
    requires NamesValid(before)
    requires forall n :: n in names <==> exists k :: 0 <= k < |before| && before[k].name == n
    requires forall v :: v in versions <==> exists k :: 0 <= k < |before| && Version(before[k].name) == v
    requires previous == if before == [] then None else Some(before[|before| - 1])
    ensures wrong == Wrong(stamp, before, m)
  {
    hide IsName, IsHash, T.Less;
    if !IsName(m.name) {
      return Some(InvalidName(m.name));
    }
    var version := Version(m.name);
    if stamp(m.millis) != version {
      return Some(InvalidTimestamp(m.name));
    }
    if m.name in names {
      return Some(DuplicateName(m.name));
    }
    if version in versions {
      return Some(DuplicateVersion(m.name));
    }
    if previous.Some? && (!T.Less(previous.value.name, m.name) || m.millis <= previous.value.millis) {
      return Some(NotOrdered(m.name));
    }
    if !IsHash(m.hash) {
      return Some(InvalidChecksum(m.name));
    }
    return None;
  }

  /** `new Map` from each name to its place. */
  function ByName(migrations: seq<Migration>): (places: map<string, nat>)
    ensures forall n :: n in places ==> places[n] < |migrations| && migrations[places[n]].name == n
    ensures forall i :: 0 <= i < |migrations| ==> migrations[i].name in places
  {
    if migrations == [] then map[] else
      var n := |migrations| - 1;
      ByName(migrations[..n])[migrations[n].name := n]
  }

  ghost predicate NamesDistinct(migrations: seq<Migration>) {
    forall i, j :: 0 <= i < j < |migrations| ==> migrations[i].name != migrations[j].name
  }

  lemma OrderedIsDistinct(stamp: int -> string, migrations: seq<Migration>)
    requires Ordered(stamp, migrations)
    ensures NamesDistinct(migrations)
  {
    forall i, j | 0 <= i < j < |migrations| ensures migrations[i].name != migrations[j].name {
      assert Before(migrations[i], migrations[j]);
    }
  }

  /** The first thing wrong with a named row after the rows placed so far. */
  ghost function RowWrong(migrations: seq<Migration>, rows: seq<Applied>, places: seq<nat>, row: Applied): Option<Error>
    requires row.name.Some?
  {
    var name, local := row.name.value, ByName(migrations);
    if exists k :: 0 <= k < |rows| && rows[k].name == row.name then Some(DuplicateApplied(name))
    else if name !in local then Some(MissingLocally(name))
    else if migrations[local[name]].hash != row.hash then Some(ChecksumChanged(name))
    else if migrations[local[name]].millis != row.createdAt then Some(VersionChanged(name))
    else if places != [] && local[name] <= places[|places| - 1] then Some(Reordered(name))
    else None
  }

  /** The named row at this place is the first that cannot be placed, and this is why. */
  ghost predicate FirstRowWrong(migrations: seq<Migration>, applied: seq<Applied>, i: nat, error: Error) {
    && i < |applied| && applied[i].name.Some?
    && exists places :: Places(migrations, Named(applied[..i]), places)
                        && RowWrong(migrations, Named(applied[..i]), places, applied[i]) == Some(error)
  }

  /** The tests of a row, in their order, against the one migration of its name. */
  lemma RowWrongAnswers(migrations: seq<Migration>, rows: seq<Applied>, places: seq<nat>, row: Applied, k: nat)
    requires NamesDistinct(migrations) && Places(migrations, rows, places)
    requires row.name.Some? && k < |migrations| && migrations[k].name == row.name.value
    ensures var wrong, name := RowWrong(migrations, rows, places, row), row.name.value;
            var repeated := exists h :: 0 <= h < |rows| && rows[h].name == Some(name);
            var sameHash, sameTime := migrations[k].hash == row.hash, migrations[k].millis == row.createdAt;
            var after := forall h :: 0 <= h < |places| ==> places[h] < k;
            && (wrong == Some(DuplicateApplied(name)) <==> repeated)
            && (wrong == Some(ChecksumChanged(name)) <==> !repeated && !sameHash)
            && (wrong == Some(VersionChanged(name)) <==> !repeated && sameHash && !sameTime)
            && (wrong == Some(Reordered(name)) <==> !repeated && sameHash && sameTime && !after)
            && (wrong.None? <==> !repeated && sameHash && sameTime && after)
  {
    assert ByName(migrations)[row.name.value] == k;
    hide ByName, Records;
    if places != [] {
      var last := |places| - 1;
      assert forall h :: 0 <= h < last ==> places[h] < places[last];
    }
  }

  /** A row of a name the catalogue does not have is missing there, unless it is repeated. */
  lemma RowMissing(migrations: seq<Migration>, rows: seq<Applied>, places: seq<nat>, row: Applied)
    requires row.name.Some? && forall k :: 0 <= k < |migrations| ==> migrations[k].name != row.name.value
    ensures RowWrong(migrations, rows, places, row) ==
            Some(if exists h :: 0 <= h < |rows| && rows[h].name == row.name then DuplicateApplied(row.name.value)
                 else MissingLocally(row.name.value))
  {
  }

  /** A row with nothing wrong takes the next place; one with something wrong has no place. */
  lemma RowStep(migrations: seq<Migration>, rows: seq<Applied>, places: seq<nat>, row: Applied)
    requires NamesDistinct(migrations) && Places(migrations, rows, places) && row.name.Some?
    ensures RowWrong(migrations, rows, places, row).None? ==>
              row.name.value in ByName(migrations)
              && Places(migrations, rows + [row], places + [ByName(migrations)[row.name.value]])
    ensures RowWrong(migrations, rows, places, row).Some? ==> !Placed(migrations, rows + [row])
  {
    hide ByName;
    if RowWrong(migrations, rows, places, row).Some? {
      if q :| Places(migrations, rows + [row], q) {
        NoPlace(migrations, rows, places, row, q);
      }
    }
  }

  lemma NoPlace(migrations: seq<Migration>, rows: seq<Applied>, places: seq<nat>, row: Applied, q: seq<nat>)
    requires NamesDistinct(migrations) && Places(migrations, rows, places) && row.name.Some?
    requires Places(migrations, rows + [row], q)
    ensures RowWrong(migrations, rows, places, row).None?
  {
    hide ByName;
    var n, longer := |rows|, rows + [row];
    assert longer[n] == row && Records(row, migrations[q[n]]);
    forall i | 0 <= i < n ensures rows[i].name != row.name && q[i] == places[i] {
      assert longer[i] == rows[i] && Records(rows[i], migrations[q[i]]) && Records(rows[i], migrations[places[i]]);
      assert migrations[q[i]].name == migrations[places[i]].name;
      assert q[i] < q[n];
    }
    var k := ByName(migrations)[row.name.value];
    assert k == q[n];
  }

  lemma {:induction false} NamedPrefix(applied: seq<Applied>, i: nat)
    requires i <= |applied|
    ensures Named(applied[..i]) <= Named(applied)
    decreases applied
  {
    if i < |applied| {
      NamedPrefix(applied[..|applied| - 1], i);
      assert applied[..|applied| - 1][..i] == applied[..i];
    } else {
      assert applied[..i] == applied;
    }
  }

  ghost predicate Placed(migrations: seq<Migration>, rows: seq<Applied>) {
    exists places :: Places(migrations, rows, places)
  }

  lemma PlacedPrefix(migrations: seq<Migration>, rows: seq<Applied>, prefix: seq<Applied>)
    requires Placed(migrations, rows) && prefix <= rows
    ensures Placed(migrations, prefix)
  {
    hide Records;
    var places :| Places(migrations, rows, places);
    assert Places(migrations, prefix, places[..|prefix|]);
  }

  /** A row without a place in its order leaves the whole history without places. */
  lemma NotPlaced(migrations: seq<Migration>, applied: seq<Applied>, i: nat)
    requires i <= |applied| && !Placed(migrations, Named(applied[..i]))
    ensures !Placed(migrations, Named(applied))
  {
    hide Placed, Named;
    if Placed(migrations, Named(applied)) {
      NamedPrefix(applied, i);
      PlacedPrefix(migrations, Named(applied), Named(applied[..i]));
    }
  }

  lemma RowWrongExplains(stamp: int -> string, migrations: seq<Migration>, applied: seq<Applied>, i: nat, places: seq<nat>)
    requires NamesDistinct(migrations) && i < |applied| && applied[i].name.Some?
    requires Places(migrations, Named(applied[..i]), places)
    requires RowWrong(migrations, Named(applied[..i]), places, applied[i]).Some?
    ensures Explains(stamp, migrations, applied, RowWrong(migrations, Named(applied[..i]), places, applied[i]).value)
  {
    hide ByName, Named, AllNamed, Explains, Places, NamesDistinct;
    var error := RowWrong(migrations, Named(applied[..i]), places, applied[i]).value;
    if error.DuplicateApplied? {
      DuplicateExplains(stamp, migrations, applied, i);
    } else if error.Reordered? {
      ReorderedExplains(stamp, migrations, applied, i, places);
    } else {
      RowExplains(stamp, migrations, applied, i);
    }
  }

  lemma NamedAt(applied: seq<Applied>, i: nat, k: nat) returns (h: nat)
    requires i <= |applied| && k < |Named(applied[..i])|
    ensures h < i && applied[h] == Named(applied[..i])[k]
  {
    NamedRows(applied[..i]);
    hide Named, AllNamed;
    h :| 0 <= h < i && applied[..i][h] == Named(applied[..i])[k];
  }

  lemma DuplicateExplains(stamp: int -> string, migrations: seq<Migration>, applied: seq<Applied>, i: nat)
    requires i < |applied| && applied[i].name.Some?
    requires exists k :: 0 <= k < |Named(applied[..i])| && Named(applied[..i])[k].name == applied[i].name
    ensures Explains(stamp, migrations, applied, DuplicateApplied(applied[i].name.value))
  {
    hide Named;
    var k :| 0 <= k < |Named(applied[..i])| && Named(applied[..i])[k].name == applied[i].name;
    var h := NamedAt(applied, i, k);
    assert applied[h].name == applied[i].name;
  }

  lemma RowExplains(stamp: int -> string, migrations: seq<Migration>, applied: seq<Applied>, i: nat)
    requires i < |applied| && applied[i].name.Some?
    ensures var row, name, local := applied[i], applied[i].name.value, ByName(migrations);
            if name !in local then Explains(stamp, migrations, applied, MissingLocally(name)) else
            && (migrations[local[name]].hash != row.hash ==> Explains(stamp, migrations, applied, ChecksumChanged(name)))
            && (migrations[local[name]].millis != row.createdAt ==> Explains(stamp, migrations, applied, VersionChanged(name)))
  {
    hide ByName;
    var row, name := applied[i], applied[i].name.value;
    assert row in applied;
    if name !in ByName(migrations) {
      forall m | m in migrations ensures m.name != name {
        var k :| 0 <= k < |migrations| && migrations[k] == m;
      }
    } else {
      assert migrations[ByName(migrations)[name]] in migrations;
    }
  }

  lemma ReorderedExplains(stamp: int -> string, migrations: seq<Migration>, applied: seq<Applied>, i: nat, places: seq<nat>)
    requires i < |applied| && applied[i].name.Some? && Places(migrations, Named(applied[..i]), places)
    requires RowWrong(migrations, Named(applied[..i]), places, applied[i]) == Some(Reordered(applied[i].name.value))
    ensures Explains(stamp, migrations, applied, Reordered(applied[i].name.value))
  {
    hide ByName, Named;
    var rows, last := Named(applied[..i]), |Named(applied[..i])| - 1;
    assert Records(rows[last], migrations[places[last]]);
    var h := NamedAt(applied, i, last);
    var k, l := ByName(migrations)[applied[i].name.value], places[last];
    assert rows[last].name != applied[i].name;
    assert RecordedAt(migrations, applied, h, l) && RecordedAt(migrations, applied, i, k);
  }

  /** The second loop: the named rows take increasing places, recorded by their names and the last place. */
  method ValidateApplied(stamp: int -> string, migrations: seq<Migration>, applied: seq<Applied>)
    returns (error: Option<Error>, names: set<string>, previousIndex: int, ghost places: seq<nat>)
    requires NamesDistinct(migrations)
    ensures error.None? ==> Places(migrations, Named(applied), places) && Tracks(Named(applied), places, names, previousIndex)
    ensures error.Some? ==> !Placed(migrations, Named(applied)) && Explains(stamp, migrations, applied, error.value)
    ensures error.Some? ==> exists i: nat :: FirstRowWrong(migrations, applied, i, error.value)
  {
    hide Places, Placed, Explains, NamesDistinct, ByName, Named, Tracks;
    var byName := ByName(migrations);
    error, names, previousIndex, places := None, {}, -1, [];
    NothingPlaced(migrations, applied);
    for i := 0 to |applied|
      invariant error.None? && Places(migrations, Named(applied[..i]), places)
      invariant Tracks(Named(applied[..i]), places, names, previousIndex)
    {
      var row := applied[i];
      NamedStep(applied, i);
      if row.name.Some? {
        ghost var rows := Named(applied[..i]);
        error := CheckRow(migrations, byName, rows, places, names, previousIndex, row);
        RowStep(migrations, rows, places, row);
        if error.Some? {
          RowWrongExplains(stamp, migrations, applied, i, places);
          NotPlaced(migrations, applied, i + 1);
          assert FirstRowWrong(migrations, applied, i, error.value);
          return;
        }
        TracksStep(rows, places, names, previousIndex, row, byName[row.name.value]);
        places := places + [byName[row.name.value]];
        names := names + {row.name.value};
        previousIndex := byName[row.name.value];
      }
    }
    assert applied[..|applied|] == applied;
  }

  lemma NothingPlaced(migrations: seq<Migration>, applied: seq<Applied>)
    ensures Places(migrations, Named(applied[..0]), []) && Tracks(Named(applied[..0]), [], {}, -1)
  {
  }

  /** The names of the rows and the last place, as the loop keeps them. */
  ghost predicate Tracks(rows: seq<Applied>, places: seq<nat>, names: set<string>, previousIndex: int) {
    && |places| == |rows|
    && (forall n :: n in names <==> exists k :: 0 <= k < |rows| && rows[k].name == Some(n))
    && previousIndex == if places == [] then -1 else places[|places| - 1]
  }

  lemma TracksStep(rows: seq<Applied>, places: seq<nat>, names: set<string>, previousIndex: int, row: Applied, place: nat)
    requires Tracks(rows, places, names, previousIndex) && row.name.Some?
    ensures Tracks(rows + [row], places + [place], names + {row.name.value}, place)
  {
    var longer := rows + [row];
    forall n ensures n in names + {row.name.value} <==> exists k :: 0 <= k < |longer| && longer[k].name == Some(n) {
      assert forall k :: 0 <= k < |rows| ==> longer[k] == rows[k];
      assert longer[|rows|] == row;
    }
  }

  method CheckRow(migrations: seq<Migration>, byName: map<string, nat>, ghost rows: seq<Applied>, ghost places: seq<nat>,
                  names: set<string>, previousIndex: int, row: Applied) returns (error: Option<Error>)
    requires byName == ByName(migrations) && row.name.Some? && Tracks(rows, places, names, previousIndex)
    ensures error == RowWrong(migrations, rows, places, row)
  {
    hide ByName;
    var name := row.name.value;
    if name in names {
      return Some(DuplicateApplied(name));
    }
    if name !in byName {
      return Some(MissingLocally(name));
    }
    var local := migrations[byName[name]];
    if local.hash != row.hash {
      return Some(ChecksumChanged(name));
    }
    if local.millis != row.createdAt {
      return Some(VersionChanged(name));
    }
    if byName[name] <= previousIndex {
      return Some(Reordered(name));
    }
    return None;
  }

  /** The third loop: with all rows named, every migration up to the last applied one must be applied. */
  method ValidateGaps(migrations: seq<Migration>, applied: seq<Applied>, names: set<string>, previousIndex: int, ghost places: seq<nat>)
    returns (error: Option<Error>)
    requires NamesDistinct(migrations) && Places(migrations, applied, places) && Tracks(applied, places, names, previousIndex)
    ensures error.None? <==> Gapless(places)
    ensures error.Some? ==>
              error.value.InsertedBefore? && error.value.name !in names && exists m :: m in migrations && m.name == error.value.name
    ensures error.Some? ==> exists k: nat :: FirstLeftOut(migrations, applied, k, error.value)
  {
    hide Records, IsApplied;
    for k := 0 to previousIndex + 1
      invariant forall h :: 0 <= h < k ==> h in places && IsApplied(applied, migrations[h].name)
    {
      PlaceNamed(migrations, applied, places, names, previousIndex, k);
      if migrations[k].name !in names {
        assert migrations[k] in migrations;
        assert places[|places| - 1] == previousIndex;
        assert FirstLeftOut(migrations, applied, k, InsertedBefore(migrations[k].name));
        return Some(InsertedBefore(migrations[k].name));
      }
    }
    return None;
  }

  lemma PlaceNamed(migrations: seq<Migration>, rows: seq<Applied>, places: seq<nat>, names: set<string>, previousIndex: int, k: nat)
    requires NamesDistinct(migrations) && Places(migrations, rows, places) && Tracks(rows, places, names, previousIndex)
    requires k < |migrations|
    ensures migrations[k].name in names <==> k in places
    ensures migrations[k].name in names <==> IsApplied(rows, migrations[k].name)
  {
    if migrations[k].name in names {
      var i :| 0 <= i < |rows| && rows[i].name == Some(migrations[k].name);
      assert Records(rows[i], migrations[places[i]]);
      assert places[i] == k;
    }
    if k in places {
      var i :| 0 <= i < |places| && places[i] == k;
      assert Records(rows[i], migrations[k]);
    }
  }

  /** The first thing found: no migrations, the first wrong migration, the first wrong row, or the first migration left out. */
  ghost predicate FirstFound(stamp: int -> string, migrations: seq<Migration>, applied: seq<Applied>, error: Error) {
    if migrations == [] then error == NoMigrations
    else if !Ordered(stamp, migrations) then exists i: nat :: FirstWrong(stamp, migrations, i, error)
    else if !Placed(migrations, Named(applied)) then exists i: nat :: FirstRowWrong(migrations, applied, i, error)
    else exists k: nat :: FirstLeftOut(migrations, applied, k, error)
  }

  predicate IsApplied(applied: seq<Applied>, name: string) {
    exists i :: 0 <= i < |applied| && applied[i].name == Some(name)
  }

  ghost predicate FirstLeftOut(migrations: seq<Migration>, applied: seq<Applied>, k: nat, error: Error) {
    && k < |migrations| && error == InsertedBefore(migrations[k].name) && !IsApplied(applied, migrations[k].name)
    && forall h :: 0 <= h < k ==> IsApplied(applied, migrations[h].name)
  }

  /**
   * The validation refuses nothing but what is not acceptable, and every refusal names something
   * true of the catalogue or of the applied rows.
   */
  method ValidateCatalog(stamp: int -> string, migrations: seq<Migration>, applied: seq<Applied>) returns (error: Option<Error>)
    ensures error.None? <==> Accepts(stamp, migrations, applied)
    ensures error.Some? ==> Explains(stamp, migrations, applied, error.value)
    ensures error.Some? ==> FirstFound(stamp, migrations, applied, error.value)
  {
    if |migrations| == 0 {
      return Some(NoMigrations);
    }
    error := ValidateOrder(stamp, migrations, applied);
    if error.Some? {
      return;
    }
    OrderedIsDistinct(stamp, migrations);
    hide Ordered, NamesDistinct, Explains, Places, Tracks, Gapless, Named;
    var names, previousIndex;
    ghost var places;
    error, names, previousIndex, places := ValidateApplied(stamp, migrations, applied);
    if error.Some? {
      return;
    }
    NamedRows(applied);
    if AllNamed(applied) {
      error := ValidateGaps(migrations, applied, names, previousIndex, places);
      if error.Some? {
        GapExplains(stamp, migrations, applied, places, names, previousIndex, error.value);
        OnePlacing(migrations, applied, places);
      }
    }
  }

  lemma GapExplains(stamp: int -> string, migrations: seq<Migration>, applied: seq<Applied>, places: seq<nat>, names: set<string>,
                    previousIndex: int, error: Error)
    requires AllNamed(applied) && Tracks(applied, places, names, previousIndex)
    requires error.InsertedBefore? && error.name !in names && exists m :: m in migrations && m.name == error.name
    ensures Explains(stamp, migrations, applied, error)
  {
    var name := error.name;
    assert error == InsertedBefore(name);
    forall row | row in applied ensures row.name != Some(name) {
      var i :| 0 <= i < |applied| && applied[i] == row;
    }
  }

  /** The places of a list of rows are determined. */
  lemma OnePlacing(migrations: seq<Migration>, rows: seq<Applied>, places: seq<nat>)
    requires NamesDistinct(migrations) && Places(migrations, rows, places)
    ensures forall q :: Places(migrations, rows, q) ==> q == places
  {
    forall q | Places(migrations, rows, q) ensures q == places {
      forall i | 0 <= i < |rows| ensures q[i] == places[i] {
        assert Records(rows[i], migrations[q[i]]) && Records(rows[i], migrations[places[i]]);
      }
    }
  }
}

/** The names of uploaded media (file-namer.service.ts): printing them, reading them back, numbering them. */
module FileNamer {
  import opened Prelude
  import C = Calendar

  // ---------- The parts of a name ----------

  datatype Intention = PRD | CAP | AQC

  function IntentionText(i: Intention): (s: string)
    ensures |s| == 3
  {
    match i
    case PRD => "PRD"
    case CAP => "CAP"
    case AQC => "AQC"
  }

  const VIDEO_EXTS := {".mp4", ".mov", ".avi", ".mkv", ".webm"}

  const PT_MONTHS := ["Jan", "Fev", "Mar", "Abr", "Mai", "Jun", "Jul", "Ago", "Set", "Out", "Nov", "Dez"]

  /** `toLowerCase`, as far as it can yield one of the video extensions: U+212A is the Kelvin sign. */
  function LowerChar(c: char): char {
    if 'A' <= c <= 'Z' then c + ' ' else if c == '\U{212A}' then 'k' else c
  }

  function Lower(s: string): string {
    seq(|s|, i requires 0 <= i < |s| => LowerChar(s[i]))
  }

  function MediaType(ext: string): (s: string)
    ensures |s| == 3
  {
    if Lower(ext) in VIDEO_EXTS then "VID" else "IMG"
  }

  /** The file is a video exactly when its extension is one of five, ignoring case. */
  lemma MediaTypeIff(ext: string)
    ensures MediaType(ext) == "VID" <==>
      SameButCase(ext, ".mp4") || SameButCase(ext, ".mov") || SameButCase(ext, ".avi")
      || SameButCase(ext, ".mkv") || SameButCase(ext, ".webm")
    ensures MediaType(ext) == "VID" || MediaType(ext) == "IMG"
  {
    LowerIff(ext, ".mp4");
    LowerIff(ext, ".mov");
    LowerIff(ext, ".avi");
    LowerIff(ext, ".mkv");
    LowerIff(ext, ".webm");
    hide SameButCase, Lower;
  }

  /** `s` is `v` but for capital letters; the Kelvin sign is a capital k. */
  predicate SameButCase(s: string, v: string) {
    |s| == |v| && forall i :: 0 <= i < |v| ==>
      s[i] == v[i] || ('a' <= v[i] <= 'z' && s[i] as int == v[i] as int - 32) || (v[i] == 'k' && s[i] == '\U{212A}')
  }

  lemma LowerIff(s: string, v: string)
    requires forall i :: 0 <= i < |v| ==> !('A' <= v[i] <= 'Z') && v[i] != '\U{212A}'
    ensures Lower(s) == v <==> SameButCase(s, v)
  {
    if |s| == |v| {
      forall i | 0 <= i < |v|
        ensures Lower(s)[i] == v[i] <==>
          s[i] == v[i] || ('a' <= v[i] <= 'z' && s[i] as int == v[i] as int - 32) || (v[i] == 'k' && s[i] == '\U{212A}')
      {
      }
      if SameButCase(s, v) {
        assert Lower(s) == v;
      }
    }
  }

  /** The extension is the end of the name that starts at its last dot. */
  lemma {:induction false} ExtensionIs(name: string) returns (stem: string)
    ensures name == stem + Extension(name)
    ensures Extension(name) == "" <==> '.' !in name
  {
    if name == "" {
      stem := "";
    } else {
      var rest := ExtensionIs(name[1..]);
      assert name == [name[0]] + name[1..];
      if Extension(name[1..]) != "" {
        stem := [name[0]] + rest;
      } else if name[0] == '.' {
        stem := "";
      } else {
        stem := name;
      }
    }
  }

  /** From the last dot of the file name on, or nothing. */
  function Extension(name: string): (ext: string)
    ensures IsExt(ext)
    ensures ext == "" ==> '.' !in name
  {
    if name == "" then ""
    else
      var rest := Extension(name[1..]);
      if rest != "" then rest else if name[0] == '.' then name else ""
  }

  predicate Kept(c: char) {
    'a' <= c <= 'z' || 'A' <= c <= 'Z' || '0' <= c <= '9' || c == ' ' || c == '_' || c == '-'
  }

  function KeepOnly(s: string): (r: string)
    ensures forall c :: c in r ==> Kept(c)
  {
    if s == "" then "" else (if Kept(s[0]) then [s[0]] else "") + KeepOnly(s[1..])
  }

  function TrimStart(s: string): (r: string)
    ensures forall c :: c in r ==> c in s
    ensures r == "" || r[0] != ' '
  {
    if s != "" && s[0] == ' ' then TrimStart(s[1..]) else s
  }

  function TrimEnd(s: string): (r: string)
    ensures r <= s
    ensures r == "" || r[|r| - 1] != ' '
  {
    if s != "" && s[|s| - 1] == ' ' then TrimEnd(s[..|s| - 1]) else s
  }

  /** `nfd` is Unicode decomposition, not modelled further; the marks it splits off are not kept. */
  function Sanitize(nfd: string -> string, product: string): (r: string)
    ensures forall c :: c in r ==> Kept(c)
    ensures r == "" || (r[0] != ' ' && r[|r| - 1] != ' ')
  {
    TrimEnd(TrimStart(KeepOnly(nfd(product))))
  }

  predicate AllSpaces(s: string) {
    forall c :: c in s ==> c == ' '
  }

  lemma {:induction false} TrimStartIs(s: string) returns (before: string)
    ensures s == before + TrimStart(s) && AllSpaces(before)
  {
    before := "";
    if s != "" && s[0] == ' ' {
      var rest := TrimStartIs(s[1..]);
      before := " " + rest;
      assert s == " " + s[1..];
    }
  }

  lemma {:induction false} TrimEndIs(s: string) returns (after: string)
    ensures s == TrimEnd(s) + after && AllSpaces(after)
  {
    after := "";
    if s != "" && s[|s| - 1] == ' ' {
      var rest := TrimEndIs(s[..|s| - 1]);
      after := rest + " ";
      assert s == s[..|s| - 1] + " ";
    }
  }

  /** A sanitized product is what is kept of its decomposition, without the spaces at both ends. */
  lemma SanitizeIs(nfd: string -> string, product: string) returns (before: string, after: string)
    ensures KeepOnly(nfd(product)) == before + Sanitize(nfd, product) + after && AllSpaces(before) && AllSpaces(after)
  {
    before := TrimStartIs(KeepOnly(nfd(product)));
    after := TrimEndIs(TrimStart(KeepOnly(nfd(product))));
  }

  lemma KeptIs(c: char)
    ensures Kept(c) <==> 'a' <= c <= 'z' || 'A' <= c <= 'Z' || '0' <= c <= '9' || c in " _-"
  {
  }

  /** Kept are letters and digits without accents, spaces, underscores and hyphens, in their order. */
  lemma {:induction false} KeepOnlyIs(s: string) returns (at: seq<nat>)
    ensures Picks(s, at, KeepOnly(s))
    ensures forall i :: 0 <= i < |s| ==> (i in at <==> Kept(s[i]))
  {
    hide Picks, Kept;
    if s == "" {
      at := [];
      NothingPicked<char>();
    } else {
      hide KeepOnly;
      var n := |s| - 1;
      var before := KeepOnlyIs(s[..n]);
      KeepOnlyLast(s);
      PickOneMore(s, before, KeepOnly(s[..n]));
      at := if Kept(s[n]) then before + [n] else before;
      forall i | 0 <= i < n
        ensures i in at <==> Kept(s[i])
      {
        assert s[..n][i] == s[i];
      }
      assert KeepOnly(s[..n]) + "" == KeepOnly(s[..n]);
    }
  }

  lemma {:induction false} KeepOnlyLast(s: string)
    requires s != ""
    ensures KeepOnly(s) == KeepOnly(s[..|s| - 1]) + if Kept(s[|s| - 1]) then [s[|s| - 1]] else ""
  {
    var n := |s| - 1;
    if n > 0 {
      KeepOnlyLast(s[1..]);
      assert s[1..][..n - 1] == s[..n][1..];
    } else {
      assert s[1..] == "" && s[..n] == "";
    }
  }

  /** Decimal digits. */
  function Digits(n: nat): (s: string)
    ensures s != "" && AllDigits(s)
  {
    var last := [('0' as int + n % 10) as char];
    if n < 10 then last else Digits(n / 10) + last
  }

  function LastTwo(s: string): string {
    if |s| <= 2 then s else s[|s| - 2..]
  }

  // ---------- Printing a name ----------

  /** What a name says. */
  datatype Name = Name(intention: Intention, mediaType: string, product: string, month: nat, year: string,
                       version: Option<nat>, ext: string)

  predicate IsProduct(s: string) {
    (forall c :: c in s ==> Kept(c)) && (s == "" || (s[0] != ' ' && s[|s| - 1] != ' '))
  }

  predicate IsExt(s: string) {
    s == "" || (s[0] == '.' && '.' !in s[1..])
  }

  predicate IsYear(s: string) {
    1 <= |s| <= 2 && AllDigits(s)
  }

  ghost predicate Legal(n: Name) {
    |n.mediaType| == 3 && '.' !in n.mediaType && IsProduct(n.product) && n.month < 12 && IsYear(n.year) && IsExt(n.ext)
  }

  function Front(n: Name): string
    requires n.month < 12
  {
    IntentionText(n.intention) + " - " + n.mediaType + " - " + n.product + " - " + PT_MONTHS[n.month] + " "
  }

  function Base(n: Name): string
    requires n.month < 12
  {
    Front(n) + n.year
  }

  function Print(n: Name): string
    requires n.month < 12
  {
    Base(n) + (if n.version.Some? then " - V" + Digits(n.version.value) else "") + n.ext
  }

  // ---------- Reading it back ----------

  /** The text before the first dot, and the rest. */
  function CutDot(s: string): (string, string) {
    if s == "" || s[0] == '.' then ("", s)
    else var (a, rest) := CutDot(s[1..]); ([s[0]] + a, rest)
  }

  /** The digits at the end of a text, and what comes before them. */
  function CutDigits(s: string): (string, string) {
    if s != "" && '0' <= s[|s| - 1] <= '9'
    then var (before, digits) := CutDigits(s[..|s| - 1]); (before, digits + [s[|s| - 1]])
    else (s, "")
  }

  predicate AllDigits(s: string) {
    forall i :: 0 <= i < |s| ==> '0' <= s[i] <= '9'
  }

  function Number(digits: string): nat
    requires AllDigits(digits)
  {
    if digits == "" then 0
    else 10 * Number(digits[..|digits| - 1]) + (digits[|digits| - 1] - '0') as nat
  }

  /** The index of a text in a list, or the length of the list. */
  function IndexOf(list: seq<string>, s: string): (i: nat)
    ensures i <= |list|
  {
    if list == [] || list[0] == s then 0 else 1 + IndexOf(list[1..], s)
  }

  /** The name without its version and extension. */
  function ReadCore(core: string, version: Option<nat>, ext: string): Option<Name> {
    var (front, year) := CutDigits(core);
    if |front| < 19 then None
    else
      var intention := if front[..3] == "PRD" then PRD else if front[..3] == "CAP" then CAP else AQC;
      var month := IndexOf(PT_MONTHS, front[|front| - 4..|front| - 1]);
      Some(Name(intention, front[6..9], front[12..|front| - 7], month, year, version, ext))
  }

  function Read(s: string): Option<Name> {
    var (body, ext) := CutDot(s);
    var (stem, digits) := CutDigits(body);
    if |stem| >= 4 && stem[|stem| - 4..] == " - V" && digits != "" && AllDigits(digits)
    then ReadCore(stem[..|stem| - 4], Some(Number(digits)), ext)
    else ReadCore(body, None, ext)
  }

  // ---------- Reading undoes printing ----------

  lemma {:induction false} CutDotAt(a: string, ext: string)
    requires '.' !in a && IsExt(ext)
    ensures CutDot(a + ext) == (a, ext)
  {
    if a == "" {
      assert a + ext == ext;
    } else {
      CutDotAt(a[1..], ext);
      assert (a + ext)[1..] == a[1..] + ext;
      assert [a[0]] + a[1..] == a;
    }
  }

  lemma {:induction false} CutDigitsAt(a: string, digits: string)
    requires AllDigits(digits) && a != "" && !('0' <= a[|a| - 1] <= '9')
    ensures CutDigits(a + digits) == (a, digits)
  {
    if digits == "" {
      assert a + digits == a;
    } else {
      var n := |digits| - 1;
      CutDigitsAt(a, digits[..n]);
      assert (a + digits)[..|a + digits| - 1] == a + digits[..n];
      assert digits[..n] + [digits[n]] == digits;
    }
  }

  lemma {:induction false} NumberOfDigits(n: nat)
    ensures AllDigits(Digits(n)) && Number(Digits(n)) == n
  {
    var s := Digits(n);
    if n >= 10 {
      NumberOfDigits(n / 10);
      assert s[..|s| - 1] == Digits(n / 10);
    } else {
      assert s[..|s| - 1] == "";
    }
  }

  lemma {:induction false} IndexOfDistinct(list: seq<string>, m: nat)
    requires m < |list| && forall i :: 0 <= i < m ==> list[i] != list[m]
    ensures IndexOf(list, list[m]) == m
  {
    if m > 0 {
      IndexOfDistinct(list[1..], m - 1);
    }
  }

  // The second and third letters tell the months apart.
  lemma MonthsDiffer(i: nat, j: nat)
    requires i < j < 12
    ensures PT_MONTHS[i] != PT_MONTHS[j]
  {
    LettersOf(i);
    LettersOf(j);
  }

  function Letters(m: nat): (char, char)
    requires m < 12
  {
    [('a', 'n'), ('e', 'v'), ('a', 'r'), ('b', 'r'), ('a', 'i'), ('u', 'n'),
     ('u', 'l'), ('g', 'o'), ('e', 't'), ('u', 't'), ('o', 'v'), ('e', 'z')][m]
  }

  lemma LettersOf(m: nat)
    requires m < 12
    ensures |PT_MONTHS[m]| == 3 && '.' !in PT_MONTHS[m]
    ensures (PT_MONTHS[m][1], PT_MONTHS[m][2]) == Letters(m)
  {
  }

  lemma MonthReadsBack(m: nat)
    requires m < 12
    ensures IndexOf(PT_MONTHS, PT_MONTHS[m]) == m && |PT_MONTHS[m]| == 3
    ensures '.' !in PT_MONTHS[m]
  {
    forall i | 0 <= i < m
      ensures PT_MONTHS[i] != PT_MONTHS[m]
    {
      MonthsDiffer(i, m);
    }
    IndexOfDistinct(PT_MONTHS, m);
    LettersOf(m);
  }

  lemma BaseShape(n: Name)
    requires Legal(n)
    ensures '.' !in Base(n)
    ensures var front := Front(n);
      Base(n) == front + n.year && |front| == 19 + |n.product| && front[|front| - 1] == ' '
  {
    MonthReadsBack(n.month);
  }

  lemma CoreReadsBack(n: Name)
    requires Legal(n)
    ensures ReadCore(Base(n), n.version, n.ext) == Some(n)
  {
    var front := Front(n);
    BaseShape(n);
    MonthReadsBack(n.month);
    CutDigitsAt(front, n.year);
    assert front[..3] == IntentionText(n.intention);
    assert front[6..9] == n.mediaType;
    assert front[12..|front| - 7] == n.product;
    assert front[|front| - 4..|front| - 1] == PT_MONTHS[n.month];
  }

  /** Everything a name was made of can be read back from it. */
  lemma ReadsBack(n: Name)
    requires Legal(n)
    ensures Read(Print(n)) == Some(n)
  {
    hide ReadCore, CutDot, CutDigits, Base;
    BaseShape(n);
    CoreReadsBack(n);
    var front := Front(n);
    match n.version
    case None =>
      assert Print(n) == Base(n) + n.ext;
      CutDotAt(Base(n), n.ext);
      CutDigitsAt(front, n.year);
      assert front[|front| - 4..][3] == ' ';
      assert " - V"[3] == 'V';
    case Some(v) =>
      var stem := Base(n) + " - V";
      NumberOfDigits(v);
      assert Print(n) == (stem + Digits(v)) + n.ext;
      CutDotAt(stem + Digits(v), n.ext);
      CutDigitsAt(stem, Digits(v));
      assert stem[|stem| - 4..] == " - V";
      assert stem[..|stem| - 4] == Base(n);
  }

  /** So different parts make different names. */
  lemma PrintIsInjective(n: Name, m: Name)
    requires Legal(n) && Legal(m) && Print(n) == Print(m)
    ensures n == m
  {
    ReadsBack(n);
    ReadsBack(m);
  }

  // ---------- Generating names ----------

  /** A saved upload and the day it was saved. */
  datatype Log = Log(clientId: string, mediaName: string, day: int)

  /** SQL `LIKE` with the pattern `base%`: an underscore in the base stands for any character. */
  predicate IsLike(base: string, s: string) {
    |base| <= |s| && forall i :: 0 <= i < |base| ==> base[i] == '_' || base[i] == s[i]
  }

  predicate Counts(log: Log, clientId: string, base: string, day: int) {
    log.clientId == clientId && IsLike(base, log.mediaName) && day <= log.day
  }

  function Count(logs: seq<Log>, clientId: string, base: string, day: int): nat {
    if logs == [] then 0
    else
      var before := Count(logs[..|logs| - 1], clientId, base, day);
      if Counts(logs[|logs| - 1], clientId, base, day) then before + 1 else before
  }

  /** The rows of a client, from the day on, whose name begins with the base, where `_` stands for any character. */
  ghost function Counted(logs: seq<Log>, clientId: string, base: string, day: int): set<int> {
    set i | 0 <= i < |logs| && logs[i].clientId == clientId && day <= logs[i].day && |base| <= |logs[i].mediaName|
      && forall k :: 0 <= k < |base| ==> base[k] == '_' || base[k] == logs[i].mediaName[k]
  }

  lemma {:induction false} CountIs(logs: seq<Log>, clientId: string, base: string, day: int)
    ensures Count(logs, clientId, base, day) == |Counted(logs, clientId, base, day)|
  {
    if logs != [] {
      var n := |logs| - 1;
      CountIs(logs[..n], clientId, base, day);
      LastCounted(logs, clientId, base, day);
    }
  }

  lemma LastCounted(logs: seq<Log>, clientId: string, base: string, day: int)
    requires logs != []
    ensures var n := |logs| - 1;
      |Counted(logs, clientId, base, day)|
        == |Counted(logs[..n], clientId, base, day)| + if Counts(logs[n], clientId, base, day) then 1 else 0
  {
    var n := |logs| - 1;
    var before := Counted(logs[..n], clientId, base, day);
    assert Counted(logs, clientId, base, day) == if Counts(logs[n], clientId, base, day) then before + {n} else before;
  }

  /** An upload request: the name of the file, and what the user says of it. */
  datatype Upload = Upload(fileName: string, intention: Intention, product: string)

  /** The name with no version that an upload on `day` gets. */
  function Unversioned(nfd: string -> string, u: Upload, day: int): Name
    requires 0 <= C.Year(day)
  {
    var ext := Extension(u.fileName);
    Name(u.intention, MediaType(ext), Sanitize(nfd, u.product), C.Month(day), LastTwo(Digits(C.Year(day))), None, ext)
  }

  /** The first upload of a day has no version, the next ones count from 2. */
  function Numbered(name: Name, count: nat): Name {
    name.(version := if count == 0 then None else Some(count + 1))
  }

  /** The version an upload gets: the start version if one is given, else one more than the names counted, from 2. */
  function VersionFor(nfd: string -> string, u: Upload, clientId: string, day: int,
                      startVersion: Option<nat>, logs: seq<Log>): Option<nat>
    requires 0 <= C.Year(day)
  {
    var name := Unversioned(nfd, u, day);
    if startVersion.Some? then startVersion
    else Numbered(name, Count(logs, clientId, Base(name), day)).version
  }

  function GenerateName(nfd: string -> string, u: Upload, clientId: string, day: int,
                        startVersion: Option<nat>, logs: seq<Log>): string
    requires 0 <= C.Year(day)
  {
    var name := Unversioned(nfd, u, day);
    if startVersion.Some? then Print(name.(version := startVersion))
    else Print(Numbered(name, Count(logs, clientId, Base(name), day)))
  }

  /** What the name says of an upload; the year is given by its last two digits. */
  lemma UnversionedIs(nfd: string -> string, u: Upload, day: int)
    requires 0 <= C.Year(day)
    ensures var n := Unversioned(nfd, u, day);
      && n.intention == u.intention && n.product == Sanitize(nfd, u.product) && n.month == C.Month(day)
      && n.ext == Extension(u.fileName) && n.mediaType == MediaType(n.ext) && n.version == None
      && AllDigits(n.year) && Number(n.year) == C.Year(day) % 100 && (C.Year(day) >= 10 ==> |n.year| == 2)
  {
    UnversionedIsLegal(nfd, u, day);
    LastTwoIs(C.Year(day));
  }

  lemma LastTwoIs(n: nat)
    ensures AllDigits(LastTwo(Digits(n))) && Number(LastTwo(Digits(n))) == n % 100
    ensures n >= 10 ==> |LastTwo(Digits(n))| == 2
  {
    NumberOfDigits(n);
    if n >= 10 {
      var s, t := Digits(n), Digits(n / 10);
      LastDigit(n);
      LastDigit(n / 10);
      assert s[..|s| - 1] == t;
      hide Digits, Number;
      assert LastTwo(s) == [t[|t| - 1], s[|s| - 1]];
      NumberOfTwo(t[|t| - 1], s[|s| - 1]);
      TwoDigits(n);
    }
  }

  lemma TwoDigits(n: nat)
    ensures n % 100 == 10 * (n / 10 % 10) + n % 10
  {
  }

  lemma NumberOfTwo(a: char, b: char)
    requires '0' <= a <= '9' && '0' <= b <= '9'
    ensures AllDigits([a, b]) && Number([a, b]) == 10 * (a - '0') as nat + (b - '0') as nat
  {
    assert [a, b][..1] == [a] && [a][..0] == "";
    assert Number([a]) == (a - '0') as nat;
  }

  lemma LastDigit(n: nat)
    ensures var s := Digits(n); '0' <= s[|s| - 1] <= '9' && (s[|s| - 1] - '0') as nat == n % 10
    ensures n >= 10 ==> Digits(n)[..|Digits(n)| - 1] == Digits(n / 10)
  {
  }

  lemma UnversionedIsLegal(nfd: string -> string, u: Upload, day: int)
    requires 0 <= C.Year(day)
    ensures Legal(Unversioned(nfd, u, day))
  {
    var digits := Digits(C.Year(day));
    assert forall i :: 0 <= i < |LastTwo(digits)| ==> LastTwo(digits)[i] in digits;
  }

  /** A generated name tells its intention, media type, sanitized product, month, year, version and extension. */
  lemma GeneratedReadsBack(nfd: string -> string, u: Upload, clientId: string, day: int,
                           startVersion: Option<nat>, logs: seq<Log>)
    requires 0 <= C.Year(day)
    ensures var name := Read(GenerateName(nfd, u, clientId, day, startVersion, logs));
      && name.Some? && name.value.(version := None) == Unversioned(nfd, u, day)
      && (startVersion.Some? ==> name.value.version == startVersion)
  {
    UnversionedIsLegal(nfd, u, day);
    var name := Unversioned(nfd, u, day);
    ReadsBack(name.(version := startVersion));
    ReadsBack(Numbered(name, Count(logs, clientId, Base(name), day)));
  }

  lemma {:induction false} CountWithout(logs: seq<Log>, i: nat, clientId: string, base: string, day: int)
    requires i < |logs|
    ensures Count(logs, clientId, base, day)
      == Count(logs[..i] + logs[i + 1..], clientId, base, day) + if Counts(logs[i], clientId, base, day) then 1 else 0
  {
    hide Counts;
    var n := |logs| - 1;
    if i == n {
      assert logs[..i] + logs[i + 1..] == logs[..n];
    } else {
      CountWithout(logs[..n], i, clientId, base, day);
      var less := logs[..n][..i] + logs[..n][i + 1..];
      assert logs[..i] + logs[i + 1..] == less + [logs[n]];
      assert (less + [logs[n]])[..|less|] == less;
    }
  }

  // More rows, in whatever order, count at least as much.
  lemma {:induction false} CountGrows(logs: seq<Log>, later: seq<Log>, clientId: string, base: string, day: int)
    requires multiset(logs) <= multiset(later)
    ensures Count(logs, clientId, base, day) <= Count(later, clientId, base, day)
  {
    hide Counts;
    if logs != [] {
      var n := |logs| - 1;
      assert logs == logs[..n] + [logs[n]];
      assert logs[n] in multiset(later);
      var i :| 0 <= i < |later| && later[i] == logs[n];
      Remaining(logs, later, i);
      CountGrows(logs[..n], later[..i] + later[i + 1..], clientId, base, day);
      CountWithout(later, i, clientId, base, day);
    }
  }

  lemma Remaining(logs: seq<Log>, later: seq<Log>, i: nat)
    requires multiset(logs) <= multiset(later) && logs != [] && i < |later| && later[i] == logs[|logs| - 1]
    ensures multiset(logs[..|logs| - 1]) <= multiset(later[..i] + later[i + 1..])
  {
    assert logs == logs[..|logs| - 1] + [later[i]];
    assert later == later[..i] + [later[i]] + later[i + 1..];
    assert multiset(later[..i] + later[i + 1..]) == multiset(later) - multiset{later[i]};
    assert multiset(logs[..|logs| - 1]) == multiset(logs) - multiset{later[i]};
  }

  // A name is counted under its own base.
  lemma CountsItself(n: Name, clientId: string, day: int)
    requires n.month < 12
    ensures Counts(Log(clientId, Print(n), day), clientId, Base(n), day)
  {
  }

  /**
   Two names generated on one day for one client with no start version differ, whatever the two files
   are, once the first is saved before the second is asked for. Other rows may be saved at any time.
   */
  lemma UnversionedNamesDiffer(nfd: string -> string, u: Upload, v: Upload, clientId: string, day: int,
                               logs: seq<Log>, later: seq<Log>)
    requires 0 <= C.Year(day)
    requires var first := GenerateName(nfd, u, clientId, day, None, logs);
      multiset(logs) + multiset{Log(clientId, first, day)} <= multiset(later)
    ensures GenerateName(nfd, u, clientId, day, None, logs) != GenerateName(nfd, v, clientId, day, None, later)
  {
    var name := Unversioned(nfd, u, day);
    UnversionedIsLegal(nfd, u, day);
    UnversionedIsLegal(nfd, v, day);
    if name == Unversioned(nfd, v, day) {
      OneMore(name, clientId, day, logs, later);
    }
    NumberedDiffer(name, Count(logs, clientId, Base(name), day),
      Unversioned(nfd, v, day), Count(later, clientId, Base(Unversioned(nfd, v, day)), day));
  }

  lemma NumberedDiffer(n: Name, c: nat, m: Name, d: nat)
    requires Legal(n) && Legal(m) && n.version == m.version == None && (n == m ==> c != d)
    ensures Print(Numbered(n, c)) != Print(Numbered(m, d))
  {
    hide Print;
    if Print(Numbered(n, c)) == Print(Numbered(m, d)) {
      PrintIsInjective(Numbered(n, c), Numbered(m, d));
    }
  }

  // Saving a name raises the count for its base.
  lemma OneMore(name: Name, clientId: string, day: int, logs: seq<Log>, later: seq<Log>)
    requires name.month < 12
    requires var n := Numbered(name, Count(logs, clientId, Base(name), day));
      multiset(logs) + multiset{Log(clientId, Print(n), day)} <= multiset(later)
    ensures Count(logs, clientId, Base(name), day) < Count(later, clientId, Base(name), day)
  {
    var n := Numbered(name, Count(logs, clientId, Base(name), day));
    var saved := logs + [Log(clientId, Print(n), day)];
    SameBase(name, n);
    CountsItself(n, clientId, day);
    assert saved[..|saved| - 1] == logs && multiset(saved) == multiset(logs) + multiset{Log(clientId, Print(n), day)};
    CountGrows(saved, later, clientId, Base(name), day);
  }

  lemma SameBase(n: Name, m: Name)
    requires n.month < 12 && m == n.(version := m.version)
    ensures Base(n) == Base(m)
  {
  }

  /**
   Two generated names are the same exactly when their uploads make the same unversioned name and get
   the same version.
   */
  lemma NamesMeetIff(nfd: string -> string, u: Upload, v: Upload, clientId: string, otherId: string,
                     day: int, other: int, su: Option<nat>, sv: Option<nat>, logs: seq<Log>, later: seq<Log>)
    requires 0 <= C.Year(day) && 0 <= C.Year(other)
    ensures GenerateName(nfd, u, clientId, day, su, logs) == GenerateName(nfd, v, otherId, other, sv, later)
      <==> (Unversioned(nfd, u, day) == Unversioned(nfd, v, other)
            && VersionFor(nfd, u, clientId, day, su, logs) == VersionFor(nfd, v, otherId, other, sv, later))
  {
    hide Print;
    UnversionedIsLegal(nfd, u, day);
    UnversionedIsLegal(nfd, v, other);
    var n := Unversioned(nfd, u, day).(version := VersionFor(nfd, u, clientId, day, su, logs));
    var m := Unversioned(nfd, v, other).(version := VersionFor(nfd, v, otherId, other, sv, later));
    assert GenerateName(nfd, u, clientId, day, su, logs) == Print(n);
    assert GenerateName(nfd, v, otherId, other, sv, later) == Print(m);
    if Print(n) == Print(m) {
      PrintIsInjective(n, m);
    }
  }

  /**
   A name given with start version `k` is given again by an upload without one exactly when this makes
   the same unversioned name and finds `k - 1` names counted, at least one.
   */
  lemma StartVersionRepeatsIff(nfd: string -> string, u: Upload, v: Upload, clientId: string, day: int, k: nat,
                               logs: seq<Log>, later: seq<Log>)
    requires 0 <= C.Year(day)
    ensures GenerateName(nfd, u, clientId, day, Some(k), logs) == GenerateName(nfd, v, clientId, day, None, later)
      <==> (Unversioned(nfd, u, day) == Unversioned(nfd, v, day)
            && k >= 2 && Count(later, clientId, Base(Unversioned(nfd, v, day)), day) == k - 1)
  {
    NamesMeetIff(nfd, u, v, clientId, clientId, day, day, Some(k), None, logs, later);
  }

  /** So a start version repeats from the next call on: version 2 is given again to the next upload. */
  lemma StartVersionRepeats(nfd: string -> string, u: Upload, clientId: string, day: int)
    requires 0 <= C.Year(day)
    ensures var first := GenerateName(nfd, u, clientId, day, Some(2), []);
      GenerateName(nfd, u, clientId, day, None, [Log(clientId, first, day)]) == first
  {
    var name := Unversioned(nfd, u, day);
    var first := GenerateName(nfd, u, clientId, day, Some(2), []);
    var logs := [Log(clientId, first, day)];
    CountsItself(name.(version := Some(2)), clientId, day);
    assert logs[..0] == [];
    assert Count(logs, clientId, Base(name), day) == 1;
    StartVersionRepeatsIff(nfd, u, u, clientId, day, 2, [], logs);
  }
}

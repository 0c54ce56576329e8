/** The names an album's items get inside its zip archive: cleaned, and told apart by a number where they clash. */
module ArchiveNames {
  import opened Basics
  import opened Text

  datatype Media = Media(id: string, filename: Option<string>, format: string)

  // ----- cleaning one name -----

  function ForwardSlashes(s: string): string {
    seq(|s|, i requires 0 <= i < |s| => if s[i] == '\\' then '/' else s[i])
  }

  /** PurePosixPath(s).name: the last component that is neither empty nor ".". */
  function PosixName(s: string): string
    decreases |s|
  {
    var last := AfterLast(s, '/');
    if last != "" && last != "." then last
    else if |last| >= |s| then ""
    else PosixName(s[..|s| - |last| - 1])
  }

  const REPLACED := {'"', '*', ':', '<', '>', '?', '|'}

  predicate IsControl(c: char) { c < ' ' || c == '\U{7F}' }

  function CleanChars(s: string): string {
    if s == [] then []
    else
      var front, c := CleanChars(s[..|s| - 1]), s[|s| - 1];
      if IsControl(c) then front else front + [if c in REPLACED then '_' else c]
  }

  function StripDots(s: string): string {
    if s != [] && s[|s| - 1] == '.' then StripDots(s[..|s| - 1]) else s
  }

  function Fallback(media: Media): string {
    if media.format != "" then media.id + "." + media.format else media.id
  }

  function SanitizeArchiveFilename(media: Media): string {
    if media.filename.None? || media.filename.value == "" then Fallback(media)
    else
      var candidate := StripDots(Strip(CleanChars(PosixName(ForwardSlashes(media.filename.value)))));
      if candidate in {"", ".", ".."} then Fallback(media) else candidate
  }

  function Candidate(media: Media): string {
    var candidate := SanitizeArchiveFilename(media);
    if '.' !in candidate && media.format != "" then candidate + "." + media.format else candidate
  }

  /** os.path.splitext of a name: at the last dot, unless only dots come before it. */
  function SplitExt(name: string): (parts: (string, string))
    ensures parts.0 + parts.1 == name
  {
    var at := |name| - |AfterLast(name, '.')| - 1;
    if at >= 0 && exists j :: 0 <= j < at && name[j] != '.' then (name[..at], name[at..]) else (name, "")
  }

  function Stem(candidate: string, id: string): string {
    var stem := SplitExt(PosixName(candidate)).0;
    if stem == "" then id else stem
  }

  function Suffix(candidate: string): string {
    SplitExt(PosixName(candidate)).1
  }

  function Numbered(stem: string, k: nat, suffix: string): string {
    stem + "-" + Decimal(k) + suffix
  }

  /** The k-th name tried for the item once its own is taken. */
  function Attempt(media: Media, k: nat): string {
    var candidate := Candidate(media);
    Numbered(Stem(candidate, media.id), k, Suffix(candidate))
  }

  // ----- choosing a name -----

  /** The name the item must get: its own, or else the first numbered one that is free. */
  ghost predicate Picks(media: Media, index: nat, seen: set<string>, name: string) {
    if Candidate(media) !in seen then name == Candidate(media)
    else exists k: nat :: FirstFree(media, index, seen, k) && name == Attempt(media, k)
  }

  /** Every number below k is taken, and k is at most |seen| numbers away. */
  ghost predicate FirstFree(media: Media, index: nat, seen: set<string>, k: nat) {
    && index <= k <= index + |seen|
    && Attempt(media, k) !in seen
    && forall j: nat :: index <= j < k ==> Attempt(media, j) in seen
  }

  lemma PickIsUnique(media: Media, index: nat, seen: set<string>, a: string, b: string)
    requires Picks(media, index, seen, a) && Picks(media, index, seen, b)
    ensures a == b && a !in seen
  {
  }

  lemma AttemptsDiffer(media: Media, j: nat, k: nat)
    requires Attempt(media, j) == Attempt(media, k)
    ensures j == k
  {
    var stem := Stem(Candidate(media), media.id);
    var suffix := Suffix(Candidate(media));
    var a, b := Attempt(media, j), Attempt(media, k);
    assert |Decimal(j)| == |Decimal(k)|;
    assert a[|stem| + 1..|a| - |suffix|] == Decimal(j);
    assert b[|stem| + 1..|b| - |suffix|] == Decimal(k);
    DecimalIsInjective(j, k);
  }

  /** The names tried so far, all of them taken and all different. */
  ghost predicate Tried(media: Media, index: nat, k: nat, tried: set<string>, seen: set<string>) {
    && index <= k && tried <= seen && |tried| == k - index
    && (forall j: nat :: index <= j < k ==> Attempt(media, j) in tried)
    && (forall t :: t in tried ==> exists j: nat :: index <= j < k && Attempt(media, j) == t)
  }

  lemma TriedNext(media: Media, index: nat, k: nat, tried: set<string>)
    requires Tried(media, index, k, tried, tried)
    ensures Attempt(media, k) !in tried
    ensures Tried(media, index, k + 1, tried + {Attempt(media, k)}, tried + {Attempt(media, k)})
  {
    forall j: nat | index <= j < k ensures Attempt(media, j) != Attempt(media, k) {
      if Attempt(media, j) == Attempt(media, k) { AttemptsDiffer(media, j, k); }
    }
  }

  /** The set of names already given, grown in place. */
  class SeenNames {
    var seen: set<string>

    constructor ()
      ensures seen == {}
    {
      seen := {};
    }

    /** _archive_name: the endless-looking loop ends within |seen| + 1 tries, because the tries differ. */
    method ArchiveName(media: Media, index: nat) returns (name: string)
      modifies this
      ensures Picks(media, index, old(seen), name)
      ensures seen == old(seen) + {name}
    {
      var candidate := Candidate(media);
      if candidate !in seen {
        seen := seen + {candidate};
        return candidate;
      }
      var stem := Stem(candidate, media.id);
      var suffix := Suffix(candidate);
      var k := index;
      ghost var tried: set<string> := {};
      while true
        invariant seen == old(seen) && Tried(media, index, k, tried, seen)
        decreases |seen| - |tried|
      {
        TriedNext(media, index, k, tried);
        SubsetIsSmaller(tried, seen);
        var deduped := Numbered(stem, k, suffix);
        if deduped !in seen {
          assert FirstFree(media, index, old(seen), k);
          seen := seen + {deduped};
          return deduped;
        }
        tried := tried + {deduped};
        SubsetIsSmaller(tried, seen);
        k := k + 1;
      }
    }
  }

  function NamesOf(names: seq<string>): set<string> { set name | name in names }

  /** Each of the first items has the name it must get after those before it. */
  ghost predicate Named(items: seq<Media>, names: seq<string>) {
    && |names| <= |items|
    && forall i :: 0 <= i < |names| ==> Picks(items[i], i + 1, NamesOf(names[..i]), names[i])
  }

  lemma NamedNext(items: seq<Media>, names: seq<string>, name: string)
    requires Named(items, names) && |names| < |items|
    requires Picks(items[|names|], |names| + 1, NamesOf(names), name)
    ensures Named(items, names + [name])
  {
    forall i | 0 <= i <= |names|
      ensures Picks(items[i], i + 1, NamesOf((names + [name])[..i]), (names + [name])[i])
    {
      assert (names + [name])[..i] == names[..i];
      assert names[..|names|] == names;
    }
  }

  /** No name is given twice. */
  lemma NamesAreDistinct(items: seq<Media>, names: seq<string>, i: nat, j: nat)
    requires Named(items, names) && i < j < |names|
    ensures names[i] != names[j]
  {
    assert names[i] == names[..j][i];
    PickIsUnique(items[j], j + 1, NamesOf(names[..j]), names[j], names[j]);
  }

  /** An item keeps its own name exactly when no earlier item was given it. */
  lemma OwnNameIffFree(items: seq<Media>, names: seq<string>, i: nat)
    requires Named(items, names) && i < |names|
    ensures names[i] == Candidate(items[i]) <==> Candidate(items[i]) !in names[..i]
  {
    PickIsUnique(items[i], i + 1, NamesOf(names[..i]), names[i], names[i]);
  }

  lemma NamedPrefix(items: seq<Media>, names: seq<string>, n: nat)
    requires Named(items, names) && n <= |names|
    ensures Named(items, names[..n])
  {
    forall i | 0 <= i < n ensures Picks(items[i], i + 1, NamesOf(names[..n][..i]), names[..n][i]) {
      assert names[..n][..i] == names[..i];
    }
  }

  /** The items determine the names. */
  lemma {:induction false} NamesAreDetermined(items: seq<Media>, a: seq<string>, b: seq<string>)
    requires Named(items, a) && Named(items, b) && |a| == |b|
    ensures a == b
  {
    if a == [] {
    } else {
      var n := |a| - 1;
      NamedPrefix(items, a, n);
      NamedPrefix(items, b, n);
      NamesAreDetermined(items, a[..n], b[..n]);
      PickIsUnique(items[n], n + 1, NamesOf(a[..n]), a[n], b[n]);
      assert a == a[..n] + [a[n]] && b == b[..n] + [b[n]];
    }
  }

  /** The loop of stream_album_zip. */
  method NameAll(items: seq<Media>) returns (names: seq<string>)
    ensures |names| == |items| && Named(items, names)
    ensures forall i, j :: 0 <= i < j < |names| ==> names[i] != names[j]
  {
    var given := new SeenNames();
    names := [];
    for i := 0 to |items|
      invariant |names| == i && given.seen == NamesOf(names) && Named(items, names)
    {
      var name := given.ArchiveName(items[i], i + 1);
      NamedNext(items, names, name);
      names := names + [name];
    }
    forall i, j | 0 <= i < j < |names| ensures names[i] != names[j] { NamesAreDistinct(items, names, i, j); }
  }

  // ----- what the names look like -----

  predicate SafeChar(c: char) {
    !IsControl(c) && c !in REPLACED && c != '/' && c != '\\'
  }

  /** A name that stays inside the directory it is unpacked into. */
  predicate SafeName(name: string) {
    && (forall c :: c in name ==> SafeChar(c))
    && name !in {"", ".", ".."}
  }

  /** Identifiers and formats are made of lower-case letters and digits. */
  predicate IsPlain(s: string) {
    forall c :: c in s ==> IsDigit(c) || 'a' <= c <= 'z'
  }

  lemma {:induction false} AfterLastHasNone(s: string, c: char)
    ensures c !in AfterLast(s, c)
    ensures forall d :: d in AfterLast(s, c) ==> d in s
    ensures |AfterLast(s, c)| <= |s|
    ensures |AfterLast(s, c)| < |s| ==> s[|s| - |AfterLast(s, c)| - 1] == c
    ensures |AfterLast(s, c)| == |s| ==> AfterLast(s, c) == s
  {
    if s != [] && s[|s| - 1] != c {
      AfterLastHasNone(s[..|s| - 1], c);
    }
  }

  lemma {:induction false} PosixNameHasNoSlash(s: string)
    ensures '/' !in PosixName(s) && PosixName(s) != "."
    ensures forall d :: d in PosixName(s) ==> d in s
    decreases |s|
  {
    AfterLastHasNone(s, '/');
    var last := AfterLast(s, '/');
    if (last == "" || last == ".") && |last| < |s| {
      PosixNameHasNoSlash(s[..|s| - |last| - 1]);
    }
  }

  lemma PosixNameOfPlainName(s: string)
    requires '/' !in s && s != "."
    ensures PosixName(s) == s
  {
    NoSlashAfterLast(s, '/');
  }

  lemma {:induction false} NoSlashAfterLast(s: string, c: char)
    requires c !in s
    ensures AfterLast(s, c) == s
  {
    if s == [] {
    } else {
      NoSlashAfterLast(s[..|s| - 1], c);
    }
  }

  lemma {:induction false} CleanCharsAreSafe(s: string)
    requires '/' !in s && '\\' !in s
    ensures forall c :: c in CleanChars(s) ==> SafeChar(c)
  {
    if s == [] {
    } else {
      CleanCharsAreSafe(s[..|s| - 1]);
    }
  }

  lemma {:induction false} StripRightKeeps(s: string)
    ensures forall c :: c in StripRight(s) ==> c in s
  {
    if s != [] && IsSpace(s[|s| - 1]) { StripRightKeeps(s[..|s| - 1]); }
  }

  lemma {:induction false} StripLeftKeeps(s: string)
    ensures forall c :: c in StripLeft(s) ==> c in s
  {
    if s != [] && IsSpace(s[0]) { StripLeftKeeps(s[1..]); }
  }

  lemma {:induction false} StripDotsKeeps(s: string)
    ensures forall c :: c in StripDots(s) ==> c in s
    ensures StripDots(s) != [] ==> StripDots(s)[|StripDots(s)| - 1] != '.'
  {
    if s != [] && s[|s| - 1] == '.' { StripDotsKeeps(s[..|s| - 1]); }
  }

  lemma CleanedIsSafe(raw: string)
    ensures forall c :: c in StripDots(Strip(CleanChars(PosixName(ForwardSlashes(raw))))) ==> SafeChar(c)
  {
    var path := ForwardSlashes(raw);
    assert '\\' !in path;
    PosixNameHasNoSlash(path);
    var cleaned := CleanChars(PosixName(path));
    CleanCharsAreSafe(PosixName(path));
    StripLeftKeeps(cleaned);
    StripRightKeeps(StripLeft(cleaned));
    StripDotsKeeps(Strip(cleaned));
  }

  lemma FallbackIsSafe(media: Media)
    requires media.id != "" && IsPlain(media.id) && IsPlain(media.format)
    ensures SafeName(Fallback(media))
  {
    assert Fallback(media)[0] == media.id[0] && media.id[0] in media.id;
  }

  lemma CandidateIsSafe(media: Media)
    requires media.id != "" && IsPlain(media.id) && IsPlain(media.format)
    ensures SafeName(Candidate(media))
  {
    FallbackIsSafe(media);
    if media.filename.Some? { CleanedIsSafe(media.filename.value); }
    var name := SanitizeArchiveFilename(media);
    assert SafeName(name);
    if '.' !in name {
      assert name[0] in name;
      assert (name + "." + media.format)[0] == name[0];
    }
  }

  lemma AttemptShape(media: Media, k: nat)
    requires SafeName(Candidate(media))
    ensures Attempt(media, k) == Numbered(SplitExt(Candidate(media)).0, k, SplitExt(Candidate(media)).1)
  {
    PosixNameOfPlainName(Candidate(media));
  }

  lemma DecimalHasNoDot(k: nat)
    ensures '.' !in "-" + Decimal(k)
  {
    assert AllDigits(Decimal(k));
  }

  lemma NumberedIsSafe(name: string, k: nat)
    requires SafeName(name)
    ensures SafeName(Numbered(SplitExt(name).0, k, SplitExt(name).1))
  {
    AttemptIsSafe(SplitExt(name).0, Decimal(k), SplitExt(name).1);
  }

  lemma NumberedKeepsExtension(name: string, k: nat)
    ensures SplitExt(Numbered(SplitExt(name).0, k, SplitExt(name).1)).1 == SplitExt(name).1
  {
    DecimalHasNoDot(k);
    ExtensionSurvives(name, "-" + Decimal(k));
    assert SplitExt(name).0 + ("-" + Decimal(k)) + SplitExt(name).1 == Numbered(SplitExt(name).0, k, SplitExt(name).1);
  }

  /** A numbered name is the item's own with "-k" put before the extension, which it keeps. */
  lemma AttemptKeepsExtension(media: Media, k: nat)
    requires media.id != "" && IsPlain(media.id) && IsPlain(media.format)
    ensures Attempt(media, k) == Numbered(SplitExt(Candidate(media)).0, k, SplitExt(Candidate(media)).1)
    ensures SafeName(Attempt(media, k)) && SplitExt(Attempt(media, k)).1 == SplitExt(Candidate(media)).1
  {
    CandidateIsSafe(media);
    AttemptShape(media, k);
    NumberedIsSafe(Candidate(media), k);
    NumberedKeepsExtension(Candidate(media), k);
  }

  lemma AttemptIsSafe(stem: string, number: string, suffix: string)
    requires SafeName(stem + suffix) && number != "" && stem != ""
    requires forall i :: 0 <= i < |number| ==> IsDigit(number[i])
    ensures SafeName(stem + "-" + number + suffix)
  {
    var name := stem + "-" + number + suffix;
    forall c | c in name ensures SafeChar(c) {
      assert c in stem ==> c in stem + suffix;
      assert c in suffix ==> c in stem + suffix;
      if c in number { assert IsDigit(c); }
    }
  }

  /** Text without a dot, put at the end of the stem, leaves the extension alone. */
  lemma ExtensionSurvives(name: string, middle: string)
    requires '.' !in middle
    ensures SplitExt(SplitExt(name).0 + middle + SplitExt(name).1).1 == SplitExt(name).1
  {
    var (stem, suffix) := SplitExt(name);
    AfterLastHasNone(name, '.');
    var after := AfterLast(name, '.');
    var at := |name| - |after| - 1;
    if suffix != "" {
      AfterLastIs(name, at, '.');
      AfterLastAt(stem + middle, suffix[1..]);
      assert stem + middle + suffix == stem + middle + "." + suffix[1..];
      var j :| 0 <= j < at && name[j] != '.';
      assert (stem + middle + suffix)[j] == name[j];
    } else {
      AfterLastOfSum(name, middle, '.');
      assert name + middle + "" == name + middle;
    }
  }

  /** The text after the last occurrence, read off its place. */
  lemma AfterLastIs(s: string, at: int, c: char)
    requires 0 <= at == |s| - |AfterLast(s, c)| - 1
    ensures AfterLast(s, c) == s[at + 1..] && s[at] == c && c !in s[at + 1..]
  {
    AfterLastHasNone(s, c);
    AfterLastIsTail(s, c);
  }

  lemma {:induction false} AfterLastIsTail(s: string, c: char)
    ensures |AfterLast(s, c)| <= |s| && AfterLast(s, c) == s[|s| - |AfterLast(s, c)|..]
  {
    if s != [] && s[|s| - 1] != c {
      AfterLastIsTail(s[..|s| - 1], c);
    }
  }

  lemma {:induction false} AfterLastAt(front: string, tail: string)
    requires '.' !in tail
    ensures AfterLast(front + "." + tail, '.') == tail
  {
    var s := front + "." + tail;
    if tail != [] {
      AfterLastAt(front, tail[..|tail| - 1]);
      assert s[..|s| - 1] == front + "." + tail[..|tail| - 1];
      assert s[|s| - 1] in tail;
    }
  }

  lemma {:induction false} AfterLastOfSum(s: string, middle: string, c: char)
    requires c !in middle
    ensures AfterLast(s + middle, c) == AfterLast(s, c) + middle
  {
    if middle == [] {
      assert s + middle == s;
    } else {
      AfterLastOfSum(s, middle[..|middle| - 1], c);
      assert (s + middle)[..|s + middle| - 1] == s + middle[..|middle| - 1];
    }
  }

  /** Whatever the stored file names, every name given is safe to unpack. */
  lemma PicksAreSafe(media: Media, index: nat, seen: set<string>, name: string)
    requires Picks(media, index, seen, name)
    requires media.id != "" && IsPlain(media.id) && IsPlain(media.format)
    ensures SafeName(name) && SplitExt(name).1 == SplitExt(Candidate(media)).1
  {
    if Candidate(media) !in seen {
      CandidateIsSafe(media);
    } else {
      var k: nat :| FirstFree(media, index, seen, k) && name == Attempt(media, k);
      AttemptKeepsExtension(media, k);
    }
  }
}

/** Valheim's lists of platform user identifiers (gametypes/embedded.go): one identifier per
    line below a comment. */
module ValheimList {
  import opened Wrappers

  const PERMITTED_HEADER := "// List permitted players ID ONE per line"
  const ADMIN_HEADER := "// List admin players ID  ONE per line"

  predicate IsLetter(c: char) {
    'a' <= c <= 'z' || 'A' <= c <= 'Z'
  }

  predicate IsAlphanumeric(c: char) {
    IsLetter(c) || '0' <= c <= '9'
  }

  /** `^[A-Za-z][A-Za-z0-9]{0,31}_[A-Za-z0-9][A-Za-z0-9-]{0,127}$` with the underscore at `k`. */
  predicate SplitsAt(s: string, k: nat) {
    && 1 <= k <= 32 && k + 2 <= |s| <= k + 129
    && s[k] == '_' && IsLetter(s[0]) && IsAlphanumeric(s[k + 1])
    && (forall i :: 1 <= i < k ==> IsAlphanumeric(s[i]))
    && (forall i :: k + 2 <= i < |s| ==> IsAlphanumeric(s[i]) || s[i] == '-')
  }

  predicate ValidPlatformId(s: string) {
    exists k :: 0 <= k < |s| && SplitsAt(s, k)
  }

  predicate IsComment(line: string) {
    |line| >= 2 && line[0] == '/' && line[1] == '/'
  }

  predicate OneLine(s: string) {
    '\n' !in s && '\r' !in s
  }

  lemma ValidIsOneLine(s: string)
    requires ValidPlatformId(s)
    ensures OneLine(s) && s != "" && !IsComment(s)
  {
    var k :| 0 <= k < |s| && SplitsAt(s, k);
    forall i | 0 <= i < |s| ensures s[i] != '\n' && s[i] != '\r' {
      if i != 0 && i != k && i != k + 1 && i >= k { assert IsAlphanumeric(s[i]) || s[i] == '-'; }
    }
  }

  predicate IsPlatform(s: string) {
    1 <= |s| <= 32 && IsLetter(s[0]) && forall i :: 1 <= i < |s| ==> IsAlphanumeric(s[i])
  }

  predicate IsUser(s: string) {
    1 <= |s| <= 128 && IsAlphanumeric(s[0]) && forall i :: 1 <= i < |s| ==> IsAlphanumeric(s[i]) || s[i] == '-'
  }

  lemma Parted(s: string, k: nat)
    requires k < |s|
    ensures SplitsAt(s, k) <==> s[k] == '_' && IsPlatform(s[..k]) && IsUser(s[k + 1..])
  {
    var user := s[k + 1..];
    assert forall i :: 0 <= i < |user| ==> user[i] == s[k + 1 + i];
    if SplitsAt(s, k) {
      forall i | 1 <= i < |user| ensures IsAlphanumeric(user[i]) || user[i] == '-' { assert user[i] == s[k + 1 + i]; }
    }
    if s[k] == '_' && IsPlatform(s[..k]) && IsUser(user) {
      forall i | k + 2 <= i < |s| ensures IsAlphanumeric(s[i]) || s[i] == '-' { assert s[i] == user[i - k - 1]; }
    }
  }

  /** An identifier is a platform of up to 32 letters and digits that starts with a letter, an
      underscore, and up to 128 letters, digits and, behind the first, hyphens. */
  lemma PlatformAndUser(s: string)
    ensures ValidPlatformId(s) <==> exists p, u :: IsPlatform(p) && IsUser(u) && s == p + "_" + u
  {
    hide SplitsAt, IsPlatform, IsUser;
    if k :| 0 <= k < |s| && SplitsAt(s, k) {
      Parted(s, k);
      assert s == s[..k] + "_" + s[k + 1..];
    }
    if p, u :| IsPlatform(p) && IsUser(u) && s == p + "_" + u {
      assert s[..|p|] == p && s[|p| + 1..] == u;
      Parted(s, |p|);
    }
  }

  // ---------------------------------------------------------------- text and lines

  /** strings.ReplaceAll(s, "\r\n", "\n") */
  function UnixNewlines(s: string): string {
    if s == "" then ""
    else if |s| >= 2 && s[0] == '\r' && s[1] == '\n' then "\n" + UnixNewlines(s[2..])
    else [s[0]] + UnixNewlines(s[1..])
  }

  /** strings.Split(s, "\n") */
  function Lines(s: string): (r: seq<string>)
    ensures r != []
  {
    if s == "" then [""]
    else
      var rest, c := Lines(s[..|s| - 1]), s[|s| - 1];
      if c == '\n' then rest + [""] else rest[..|rest| - 1] + [rest[|rest| - 1] + [c]]
  }

  /** strings.Join(lines, "\n") */
  function Join(lines: seq<string>): string
    requires lines != []
  {
    if |lines| == 1 then lines[0]
    else Join(lines[..|lines| - 1]) + "\n" + lines[|lines| - 1]
  }

  lemma {:induction false} NoReturnsNoChange(s: string)
    requires '\r' !in s
    ensures UnixNewlines(s) == s
  {
    if s != "" {
      assert s[0] in s && forall c :: c in s[1..] ==> c in s;
      NoReturnsNoChange(s[1..]);
    }
  }

  /** Every carriage return before a newline goes, */
  lemma {:induction false} NewlineReplaced(a: string, b: string)
    ensures UnixNewlines(a + ("\r\n" + b)) == UnixNewlines(a) + ("\n" + UnixNewlines(b))
  {
    if a == "" {
      var t := "\r\n" + b;
      assert a + t == t && t[0] == '\r' && t[1] == '\n' && t[2..] == b;
      assert UnixNewlines(a) == "" && "" + ("\n" + UnixNewlines(b)) == "\n" + UnixNewlines(b);
    } else if |a| >= 2 && a[0] == '\r' && a[1] == '\n' {
      NewlineReplaced(a[2..], b);
      UnixNewlinesSkip(a, "\r\n" + b);
    } else {
      NewlineReplaced(a[1..], b);
      UnixNewlinesKeep(a, "\r\n" + b);
    }
  }

  lemma UnixNewlinesSkip(a: string, t: string)
    requires |a| >= 2 && a[0] == '\r' && a[1] == '\n'
    ensures UnixNewlines(a) == "\n" + UnixNewlines(a[2..]) && UnixNewlines(a + t) == "\n" + UnixNewlines(a[2..] + t)
  {
    assert (a + t)[2..] == a[2..] + t;
  }

  lemma UnixNewlinesKeep(a: string, t: string)
    requires a != "" && !(|a| >= 2 && a[0] == '\r' && a[1] == '\n') && t != "" && t[0] != '\n'
    ensures UnixNewlines(a) == [a[0]] + UnixNewlines(a[1..]) && UnixNewlines(a + t) == [a[0]] + UnixNewlines(a[1..] + t)
  {
    assert (a + t)[1..] == a[1..] + t;
    assert (a + t)[1] == if |a| >= 2 then a[1] else t[0];
  }

  /** and nothing else changes. */
  lemma {:induction false} NothingToReplace(s: string)
    requires forall i :: 0 <= i < |s| - 1 ==> !(s[i] == '\r' && s[i + 1] == '\n')
    ensures UnixNewlines(s) == s
  {
    if s != "" {
      assert s == [s[0]] + s[1..];
      NothingToReplace(s[1..]);
    }
  }

  lemma OneMoreChar(s: string, c: char)
    ensures Lines(s + [c]) == if c == '\n' then Lines(s) + [""] else Lines(s)[..|Lines(s)| - 1] + [Lines(s)[|Lines(s)| - 1] + [c]]
  {
    assert (s + [c])[..|s|] == s;
  }

  lemma {:induction false} LinesAfterNewline(s: string, line: string)
    requires '\n' !in line
    ensures Lines(s + "\n" + line) == Lines(s) + [line]
  {
    hide Lines;
    if line == "" {
      OneMoreChar(s, '\n');
      assert s + "\n" + line == s + ['\n'];
    } else {
      var n := |line| - 1;
      var front, c := line[..n], line[n];
      assert c in line && forall d :: d in front ==> d in line;
      LinesAfterNewline(s, front);
      OneMoreChar(s + "\n" + front, c);
      assert s + "\n" + line == s + "\n" + front + [c];
      assert (Lines(s) + [front])[..|Lines(s)|] == Lines(s);
      assert line == front + [c];
    }
  }

  lemma {:induction false} SingleLine(line: string)
    requires '\n' !in line
    ensures Lines(line) == [line]
  {
    if line != "" {
      var n := |line| - 1;
      assert line[n] in line && forall c :: c in line[..n] ==> c in line;
      SingleLine(line[..n]);
      assert line == line[..n] + [line[n]];
    }
  }

  lemma {:induction false} JoinKeepsReturns(lines: seq<string>)
    requires lines != [] && forall line :: line in lines ==> OneLine(line)
    ensures '\r' !in Join(lines)
  {
    var n := |lines| - 1;
    assert lines[n] in lines && forall line :: line in lines[..n] ==> line in lines;
    if n > 0 { JoinKeepsReturns(lines[..n]); }
  }

  lemma LinesOfLongerJoin(front: seq<string>, last: string)
    requires front != [] && Lines(Join(front)) == front && '\n' !in last
    ensures Lines(Join(front + [last])) == front + [last]
  {
    hide Lines;
    assert (front + [last])[..|front|] == front;
    LinesAfterNewline(Join(front), last);
  }

  /** Splitting undoes joining. */
  lemma {:induction false} LinesOfJoin(lines: seq<string>)
    requires lines != [] && forall i :: 0 <= i < |lines| ==> OneLine(lines[i])
    ensures Lines(Join(lines)) == lines
  {
    hide Lines, OneLine;
    var n := |lines| - 1;
    OneLineHasNoNewline(lines[n]);
    if n == 0 {
      SingleLine(lines[0]);
    } else {
      LinesOfJoin(lines[..n]);
      LinesOfLongerJoin(lines[..n], lines[n]);
      LastRejoined(lines);
    }
  }

  lemma LastRejoined(lines: seq<string>)
    requires lines != []
    ensures lines == lines[..|lines| - 1] + [lines[|lines| - 1]]
  {}

  lemma OneLineHasNoNewline(line: string)
    requires OneLine(line)
    ensures '\n' !in line
  {}

  // ---------------------------------------------------------------- reading and writing

  function FirstOccurrences(s: seq<string>): seq<string> {
    if s == [] then []
    else
      var rest, last := FirstOccurrences(s[..|s| - 1]), s[|s| - 1];
      if last in rest then rest else rest + [last]
  }

  predicate NoRepeats(s: seq<string>) {
    s == [] || (s[|s| - 1] !in s[..|s| - 1] && NoRepeats(s[..|s| - 1]))
  }

  /** What the identifiers in the lines are; None if some line is none. */
  function Identifiers(lines: seq<string>): Option<seq<string>> {
    if lines == [] then Some([])
    else
      var rest, line := Identifiers(lines[..|lines| - 1]), lines[|lines| - 1];
      if rest.None? || line == "" || IsComment(line) then rest
      else if !ValidPlatformId(line) then None
      else if line in rest.value then rest
      else Some(rest.value + [line])
  }

  function Decoded(raw: string): Option<seq<string>> {
    Identifiers(Lines(UnixNewlines(raw)))
  }

  function Encoded(header: string, entries: seq<string>): string {
    Join([header] + entries) + "\n"
  }

  lemma {:induction false} NoneStays(lines: seq<string>, i: nat)
    requires i <= |lines| && Identifiers(lines[..i]).None?
    ensures Identifiers(lines).None?
  {
    if i < |lines| {
      assert lines[..|lines| - 1][..i] == lines[..i];
      NoneStays(lines[..|lines| - 1], i);
    } else {
      assert lines[..i] == lines;
    }
  }

  /** The lines that are neither blank nor comments. */
  function Entries(lines: seq<string>): seq<string> {
    if lines == [] then []
    else
      var rest, line := Entries(lines[..|lines| - 1]), lines[|lines| - 1];
      if line != "" && !(|line| >= 2 && line[..2] == "//") then rest + [line] else rest
  }

  lemma {:induction false} EntriesMembers(lines: seq<string>)
    ensures forall e :: e in Entries(lines) <==> e in lines && e != "" && !IsComment(e)
  {
    if lines != [] {
      EntriesMembers(lines[..|lines| - 1]);
      assert lines == lines[..|lines| - 1] + [lines[|lines| - 1]];
    }
  }

  lemma {:induction false} IdentifiersOfLines(lines: seq<string>)
    ensures Identifiers(lines) ==
              if forall e :: e in Entries(lines) ==> ValidPlatformId(e) then Some(FirstOccurrences(Entries(lines))) else None
  {
    if lines != [] {
      var front, line := lines[..|lines| - 1], lines[|lines| - 1];
      IdentifiersOfLines(front);
      FirstOccurrencesMembers(Entries(front));
      assert IsComment(line) <==> |line| >= 2 && line[..2] == "//";
      if line != "" && !IsComment(line) {
        assert Entries(lines)[..|Entries(front)|] == Entries(front);
        assert forall e :: e in Entries(lines) <==> e in Entries(front) || e == line;
      }
    }
  }

  lemma {:induction false} FirstOccurrencesMembers(s: seq<string>)
    ensures NoRepeats(FirstOccurrences(s)) && forall e :: e in FirstOccurrences(s) <==> e in s
  {
    if s != [] {
      var front, last := s[..|s| - 1], s[|s| - 1];
      FirstOccurrencesMembers(front);
      assert s == front + [last];
      assert (FirstOccurrences(front) + [last])[..|FirstOccurrences(front)|] == FirstOccurrences(front);
    }
  }

  /** A file is refused exactly if some line that is neither blank nor a comment is no identifier;
      otherwise it lists these lines, each once. */
  lemma DecodedExactly(raw: string)
    ensures var lines := Lines(UnixNewlines(raw));
            && (Decoded(raw).None? <==> exists line :: line in lines && line != "" && !IsComment(line) && !ValidPlatformId(line))
            && (Decoded(raw).Some? ==>
                  && Decoded(raw).value == FirstOccurrences(Entries(lines)) && NoRepeats(Decoded(raw).value)
                  && forall e :: e in Decoded(raw).value <==> e in lines && e != "" && !IsComment(e))
  {
    var lines := Lines(UnixNewlines(raw));
    IdentifiersOfLines(lines);
    EntriesMembers(lines);
    FirstOccurrencesMembers(Entries(lines));
  }

  method DecodeIDList(raw: string) returns (entries: Option<seq<string>>)
    ensures entries == Decoded(raw)
  {
    var lines := Lines(UnixNewlines(raw));
    var found: seq<string>, seen: set<string> := [], {};
    for i := 0 to |lines|
      invariant Identifiers(lines[..i]) == Some(found)
      invariant forall s :: s in seen <==> s in found
    {
      var line := lines[i];
      assert lines[..i + 1][..i] == lines[..i];
      if line == "" || IsComment(line) { continue; }
      if !ValidPlatformId(line) {
        NoneStays(lines, i + 1);
        return None;
      }
      if line !in seen {
        found, seen := found + [line], seen + {line};
      }
    }
    assert lines[..|lines|] == lines;
    return Some(found);
  }

  method EncodeIDList(entries: seq<string>, header: string) returns (raw: Option<string>)
    ensures raw == if forall e :: e in entries ==> ValidPlatformId(e) then Some(Encoded(header, entries)) else None
  {
    var identities := [];
    for i := 0 to |entries|
      invariant identities == entries[..i]
      invariant forall e :: e in entries[..i] ==> ValidPlatformId(e)
    {
      if !ValidPlatformId(entries[i]) { return None; }
      identities := identities + [entries[i]];
    }
    assert entries[..|entries|] == entries;
    return Some(Join([header] + identities) + "\n");
  }

  // ---------------------------------------------------------------- the round trip

  lemma {:induction false} DecodedEntries(lines: seq<string>)
    requires Identifiers(lines).Some?
    ensures NoRepeats(Identifiers(lines).value)
    ensures forall e :: e in Identifiers(lines).value ==> ValidPlatformId(e)
  {
    if lines != [] {
      DecodedEntries(lines[..|lines| - 1]);
      var rest, line := Identifiers(lines[..|lines| - 1]).value, lines[|lines| - 1];
      assert (rest + [line])[..|rest|] == rest;
    }
  }

  lemma {:induction false} IdentifiersOfEntries(header: string, entries: seq<string>)
    requires IsComment(header) && forall e :: e in entries ==> ValidPlatformId(e)
    ensures Identifiers([header] + entries) == Some(FirstOccurrences(entries))
  {
    var lines, n := [header] + entries, |entries|;
    if n == 0 {
      assert lines[..0] == [] && Identifiers(lines[..0]) == Some([]);
      assert lines[|lines| - 1] == header;
    } else {
      assert entries[n - 1] in entries && forall e :: e in entries[..n - 1] ==> e in entries;
      IdentifiersOfEntries(header, entries[..n - 1]);
      assert lines[..n] == [header] + entries[..n - 1];
      assert lines[|lines| - 1] == entries[n - 1];
      ValidIsOneLine(entries[n - 1]);
    }
  }

  lemma {:induction false} NoRepeatsStays(s: seq<string>)
    requires NoRepeats(s)
    ensures FirstOccurrences(s) == s
  {
    if s != [] {
      NoRepeatsStays(s[..|s| - 1]);
      assert s == s[..|s| - 1] + [s[|s| - 1]];
    }
  }

  lemma LinesOfEncoded(header: string, entries: seq<string>)
    requires OneLine(header) && forall e :: e in entries ==> OneLine(e)
    ensures Lines(UnixNewlines(Encoded(header, entries))) == [header] + entries + [""]
  {
    var lines := [header] + entries;
    JoinKeepsReturns(lines);
    LinesOfJoin(lines);
    var text := Encoded(header, entries);
    assert text == Join(lines) + "\n" + "";
    NoReturnsNoChange(text);
    LinesAfterNewline(Join(lines), "");
  }

  /** What was written is read back, up to repeated entries. */
  lemma EncodeDecode(header: string, entries: seq<string>)
    requires IsComment(header) && OneLine(header)
    requires forall e :: e in entries ==> ValidPlatformId(e)
    ensures Decoded(Encoded(header, entries)) == Some(FirstOccurrences(entries))
    ensures NoRepeats(entries) ==> Decoded(Encoded(header, entries)) == Some(entries)
  {
    forall e | e in entries ensures OneLine(e) { ValidIsOneLine(e); }
    LinesOfEncoded(header, entries);
    var lines := [header] + entries;
    assert (lines + [""])[..|lines|] == lines;
    IdentifiersOfEntries(header, entries);
    if NoRepeats(entries) { NoRepeatsStays(entries); }
  }

  /** Rewriting an accepted file, whatever its comments, line ends and repetitions, changes
      nothing for the next reader. */
  lemma RewrittenFileReadsTheSame(raw: string, header: string)
    requires IsComment(header) && OneLine(header)
    requires Decoded(raw).Some?
    ensures Decoded(Encoded(header, Decoded(raw).value)) == Decoded(raw)
  {
    DecodedEntries(Lines(UnixNewlines(raw)));
    EncodeDecode(header, Decoded(raw).value);
  }

  /** Both headers are comments on one line, which is what the round trip needs. */
  lemma PermittedHeaderIsComment()
    ensures IsComment(PERMITTED_HEADER) && OneLine(PERMITTED_HEADER)
  {}

  lemma AdminHeaderIsComment()
    ensures IsComment(ADMIN_HEADER) && OneLine(ADMIN_HEADER)
  {}

  /** What the reconcilers write for either list is what they read next time. */
  lemma BothListsReadBack(entries: seq<string>)
    requires NoRepeats(entries) && forall e :: e in entries ==> ValidPlatformId(e)
    ensures Decoded(Encoded(PERMITTED_HEADER, entries)) == Some(entries)
    ensures Decoded(Encoded(ADMIN_HEADER, entries)) == Some(entries)
  {
    PermittedHeaderIsComment();
    AdminHeaderIsComment();
    hide IsComment, OneLine, Decoded, Encoded;
    EncodeDecode(PERMITTED_HEADER, entries);
    EncodeDecode(ADMIN_HEADER, entries);
  }
}

/** The two structured server responses the client understands
    (src/backends/rcon.cpp:297-424): the mission listing (sequence 1) and the
    player listing (sequence 2). Both are cut into lines and tokens with
    Poco's `StringTokenizer` and matched with boost's `ends_with`. */
module Responses {
  import opened Wrappers

  /** The position of the first `c` in `s`, or `|s|` when there is none
      (`std::string::find`, with `|s|` standing for `npos`). */
  function IndexOf(s: string, c: char): (k: nat)
    ensures k <= |s|
    ensures k < |s| ==> s[k] == c
    ensures forall i :: 0 <= i < k ==> s[i] != c
  {
    if s == [] then 0
    else if s[0] == c then 0
    else 1 + IndexOf(s[1..], c)
  }

  /** `s` cut at every `sep`: k separators give k + 1 pieces, empty pieces
      included. */
  function Split(s: string, sep: char): (parts: seq<string>)
    ensures |parts| >= 1
    decreases |s|
  {
    var k := IndexOf(s, sep);
    if k == |s| then [s] else [s[..k]] + Split(s[k + 1..], sep)
  }

  /** The pieces put back together with `sep` between neighbours. */
  function Join(parts: seq<string>, sep: char): string
  {
    if |parts| == 0 then []
    else if |parts| == 1 then parts[0]
    else parts[0] + [sep] + Join(parts[1..], sep)
  }

  /** `StringTokenizer(s, sep)` without options: every separator ends a
      token, empty tokens are kept, and an empty input has no tokens. */
  function Tokenize(s: string, sep: char): seq<string>
  {
    if s == [] then [] else Split(s, sep)
  }

  /** Splitting loses nothing: joining the pieces gives the text back. */
  lemma {:induction false} JoinSplit(s: string, sep: char)
    ensures Join(Split(s, sep), sep) == s
    decreases |s|
  {
    var k := IndexOf(s, sep);
    if k < |s| {
      var rest := s[k + 1..];
      JoinSplit(rest, sep);
      assert s == s[..k] + [sep] + rest;
    }
  }

  /** No piece of a split holds the separator. */
  lemma {:induction false} SplitPiecesFree(s: string, sep: char)
    ensures forall i :: 0 <= i < |Split(s, sep)| ==> sep !in Split(s, sep)[i]
    decreases |s|
  {
    var k := IndexOf(s, sep);
    if k < |s| {
      SplitPiecesFree(s[k + 1..], sep);
    }
  }

  /** The first separator of `a + [sep] + b` is the one after `a` when `a`
      holds none. */
  lemma {:induction false} IndexOfJoined(a: string, sep: char, b: string)
    requires sep !in a
    ensures IndexOf(a + [sep] + b, sep) == |a|
    decreases |a|
  {
    if a != [] {
      assert (a + [sep] + b)[1..] == a[1..] + [sep] + b;
      IndexOfJoined(a[1..], sep, b);
    }
  }

  /** The first `c` of `s` is at `k` when `s[k]` is one and none comes
      before it. */
  lemma {:induction false} IndexOfAt(s: string, c: char, k: nat)
    requires k < |s| && s[k] == c
    requires forall i :: 0 <= i < k ==> s[i] != c
    ensures IndexOf(s, c) == k
    decreases k
  {
    if k > 0 {
      IndexOfAt(s[1..], c, k - 1);
    }
  }

  /** A text without the separator is a single piece. */
  lemma IndexOfAbsent(a: string, sep: char)
    requires sep !in a
    ensures IndexOf(a, sep) == |a|
  {
  }

  /** A text without the separator splits into itself alone. */
  lemma SplitAbsent(a: string, sep: char)
    requires sep !in a
    ensures Split(a, sep) == [a]
  {
    IndexOfAbsent(a, sep);
  }

  /** Joining pieces free of the separator and splitting again gives the
      pieces back. */
  lemma {:induction false} SplitJoin(parts: seq<string>, sep: char)
    requires |parts| >= 1
    requires forall i :: 0 <= i < |parts| ==> sep !in parts[i]
    ensures Split(Join(parts, sep), sep) == parts
    decreases |parts|
  {
    if |parts| == 1 {
      IndexOfAbsent(parts[0], sep);
    } else {
      var rest := Join(parts[1..], sep);
      IndexOfJoined(parts[0], sep, rest);
      var s := parts[0] + [sep] + rest;
      assert s[..|parts[0]|] == parts[0];
      assert s[|parts[0]| + 1..] == rest;
      SplitJoin(parts[1..], sep);
    }
  }

  /** Tokenizing loses nothing, and no token holds the separator. */
  lemma TokenizeJoin(s: string, sep: char)
    ensures Join(Tokenize(s, sep), sep) == s
    ensures forall i :: 0 <= i < |Tokenize(s, sep)| ==> sep !in Tokenize(s, sep)[i]
  {
    if s != [] {
      JoinSplit(s, sep);
      SplitPiecesFree(s, sep);
    }
  }

  /** boost's `ends_with`. */
  predicate EndsWith(s: string, suffix: string)
  {
    |s| >= |suffix| && s[|s| - |suffix|..] == suffix
  }

  // ---------------------------------------------------------------- missions

  /** A mission file name with its `.pbo` package suffix removed when it has
      one. */
  function StripPbo(file: string): (name: string)
    ensures EndsWith(file, ".pbo") ==> name + ".pbo" == file
    ensures !EndsWith(file, ".pbo") ==> name == file
  {
    if EndsWith(file, ".pbo") then file[..|file| - 4] else file
  }

  /** The mission names of a listing: every line after the header, in
      order, with the package suffix stripped. */
  function MissionNames(message: string): (names: seq<string>)
  {
    var lines := Tokenize(message, '\n');
    if |lines| <= 1 then []
    else seq(|lines| - 1, i requires 0 <= i < |lines| - 1 => StripPbo(lines[i + 1]))
  }

  /** The mission names, collected line by line as the client does. Each
      name is its line, less a trailing `.pbo`. */
  method ParseMissions(message: string) returns (names: seq<string>)
    ensures names == MissionNames(message)
    ensures |names| == if message == [] then 0 else |Tokenize(message, '\n')| - 1
    ensures forall i :: 0 <= i < |names| ==>
      var line := Tokenize(message, '\n')[i + 1];
      if EndsWith(line, ".pbo") then names[i] + ".pbo" == line else names[i] == line
  {
    var tokens := Tokenize(message, '\n');
    names := [];
    var i := 1;
    while i < |tokens|
      invariant 1 <= i <= if |tokens| == 0 then 1 else |tokens|
      invariant |names| == i - 1
      invariant forall k :: 0 <= k < i - 1 ==> names[k] == StripPbo(tokens[k + 1])
    {
      if EndsWith(tokens[i], ".pbo") {
        names := names + [tokens[i][..|tokens[i]| - 4]];
      } else {
        names := names + [tokens[i]];
      }
      i := i + 1;
    }
  }

  /** The names, each followed by a comma. */
  function Terminated(names: seq<string>): string
  {
    if names == [] then [] else Terminated(names[..|names| - 1]) + names[|names| - 1] + [',']
  }

  /** Joining grows at the back by a separator and the new piece. */
  lemma {:induction false} JoinSnoc(parts: seq<string>, last: string, sep: char)
    requires |parts| >= 1
    ensures Join(parts + [last], sep) == Join(parts, sep) + [sep] + last
    decreases |parts|
  {
    if |parts| == 1 {
      assert Join(parts + [last], sep) == parts[0] + [sep] + Join([last], sep);
    } else {
      assert (parts + [last])[1..] == parts[1..] + [last];
      JoinSnoc(parts[1..], last, sep);
    }
  }

  /** Each name followed by a comma is the comma-joined names and one comma
      more. */
  lemma {:induction false} TerminatedIsJoin(names: seq<string>)
    requires |names| >= 1
    ensures Terminated(names) == Join(names, ',') + [',']
    decreases |names|
  {
    if |names| > 1 {
      var front := names[..|names| - 1];
      TerminatedIsJoin(front);
      JoinSnoc(front, names[|names| - 1], ',');
      assert front + [names[|names| - 1]] == names;
    }
  }

  /** The result string of a mission listing, as handed to the host. */
  function MissionsResult(names: seq<string>): string
  {
    if names == [] then "[1,[]]" else "[1,[" + Join(names, ',') + "]]"
  }

  /** The result string, built as the client does: each name and a comma,
      the last comma taken back, the brackets closed. */
  method FormatMissions(names: seq<string>) returns (result: string)
    ensures result == MissionsResult(names)
    ensures |result| >= 6 && result[..4] == "[1,[" && result[|result| - 2..] == "]]"
  {
    if names == [] {
      result := "[1,[]]";
    } else {
      result := "[1,[";
      var i := 0;
      while i < |names|
        invariant 0 <= i <= |names|
        invariant result == "[1,[" + Terminated(names[..i])
      {
        assert names[..i + 1][..i] == names[..i];
        result := result + names[i];
        result := result + [','];
        i := i + 1;
      }
      assert names[..i] == names;
      TerminatedIsJoin(names);
      result := result[..|result| - 1];
      assert result == "[1,[" + Join(names, ',');
      result := result + "]]";
    }
  }

  /** When no name holds a comma, the names can be read back from the
      result: the text between `[1,[` and `]]`, cut at commas. */
  lemma MissionsResultReadBack(names: seq<string>)
    requires |names| >= 1
    requires forall i :: 0 <= i < |names| ==> ',' !in names[i]
    ensures var r := MissionsResult(names);
      |r| >= 6 && Split(r[4..|r| - 2], ',') == names
  {
    var r := MissionsResult(names);
    assert r[4..|r| - 2] == Join(names, ',');
    SplitJoin(names, ',');
  }

  /** A header line and one more line give that line's mission name. */
  lemma MissionListingOneLine(header: string, file: string)
    requires '\n' !in header && '\n' !in file
    ensures MissionNames(header + "\n" + file) == [StripPbo(file)]
  {
    var m := header + "\n" + file;
    IndexOfJoined(header, '\n', file);
    assert m[..|header|] == header && m[|header| + 1..] == file;
    SplitAbsent(file, '\n');
    assert Tokenize(m, '\n') == [header, file];
  }

  /** A header line alone gives no names, which the result shows as an
      empty list. */
  lemma MissionListingHeaderOnly()
    ensures MissionNames("missions:") == []
    ensures MissionsResult(MissionNames("missions:")) == "[1,[]]"
  {
    SplitAbsent("missions:", '\n');
  }

  // ----------------------------------------------------------------- players

  /** No two neighbouring characters are both spaces. */
  predicate NoDoubleSpace(s: string)
  {
    forall i :: 0 <= i < |s| - 1 ==> !(s[i] == ' ' && s[i + 1] == ' ')
  }

  /** Every run of spaces shortened to one space (`std::unique` with "both
      are spaces" as the equality). */
  function CollapseSpaces(s: string): string
  {
    if |s| <= 1 then s
    else if s[0] == ' ' && s[1] == ' ' then CollapseSpaces(s[1..])
    else [s[0]] + CollapseSpaces(s[1..])
  }

  /** The characters of `s` other than spaces, in order. */
  function NonSpaces(s: string): string
  {
    if s == [] then [] else (if s[0] == ' ' then [] else [s[0]]) + NonSpaces(s[1..])
  }

  /** Collapsing keeps the first character. */
  lemma {:induction false} CollapseSpacesHead(s: string)
    requires |s| >= 1
    ensures |CollapseSpaces(s)| >= 1 && CollapseSpaces(s)[0] == s[0]
    decreases |s|
  {
    if |s| > 1 && s[0] == ' ' && s[1] == ' ' {
      CollapseSpacesHead(s[1..]);
    }
  }

  /** After collapsing no two spaces are neighbours, and only spaces were
      removed. */
  lemma {:induction false} CollapseSpacesSpec(s: string)
    ensures NoDoubleSpace(CollapseSpaces(s))
    ensures NonSpaces(CollapseSpaces(s)) == NonSpaces(s)
    decreases |s|
  {
    if |s| > 1 {
      var rest := CollapseSpaces(s[1..]);
      CollapseSpacesSpec(s[1..]);
      CollapseSpacesHead(s[1..]);
      if !(s[0] == ' ' && s[1] == ' ') {
        var r := [s[0]] + rest;
        assert r[1..] == rest;
        forall i | 0 <= i < |r| - 1 ensures !(r[i] == ' ' && r[i + 1] == ' ') {
          if i > 0 {
            assert r[i] == rest[i - 1] && r[i + 1] == rest[i];
          }
        }
      }
    }
  }

  /** Two neighbouring spaces anywhere in a line collapse as one space does:
      every run of spaces becomes exactly one space, and nothing else is
      merged. With `CollapseSpacesIdentity` this fixes the result. */
  lemma {:induction false} CollapseSpacesRun(x: string, y: string)
    ensures CollapseSpaces(x + "  " + y) == CollapseSpaces(x + " " + y)
    decreases |x|
  {
    var s, t := x + "  " + y, x + " " + y;
    if x == [] {
      assert s[1..] == t;
    } else {
      assert s[1..] == x[1..] + "  " + y;
      assert t[1..] == x[1..] + " " + y;
      assert s[0] == t[0] && s[1] == t[1];
      CollapseSpacesRun(x[1..], y);
    }
  }

  /** A text without neighbouring spaces is left as it is, so collapsing
      twice is collapsing once. */
  lemma {:induction false} CollapseSpacesIdentity(s: string)
    requires NoDoubleSpace(s)
    ensures CollapseSpaces(s) == s
    decreases |s|
  {
    if |s| > 1 {
      assert NoDoubleSpace(s[1..]) by {
        forall i | 0 <= i < |s[1..]| - 1 ensures !(s[1..][i] == ' ' && s[1..][i + 1] == ' ') {
          assert s[1..][i] == s[i + 1] && s[1..][i + 1] == s[i + 2];
        }
      }
      CollapseSpacesIdentity(s[1..]);
      assert !(s[0] == ' ' && s[1] == ' ');
    }
  }

  /** Collapsing is idempotent. */
  lemma CollapseSpacesIdempotent(s: string)
    ensures CollapseSpaces(CollapseSpaces(s)) == CollapseSpaces(s)
  {
    CollapseSpacesSpec(s);
    CollapseSpacesIdentity(CollapseSpaces(s));
  }

  /** One player of a listing. */
  datatype PlayerRecord = PlayerRecord(
    number: string, ip: string, port: string, ping: string,
    guid: string, verified: bool, name: string)

  /** What one line of the listing yields: a player, a line with fewer than
      five tokens, or a line where the name's offset runs past the end (the
      client throws `std::out_of_range` there). */
  datatype PlayerLine =
    | Player(record: PlayerRecord)
    | TooFewTokens
    | NameOutOfRange

  /** The address part of an `ip:port` token as the client computes it:
      `substr(0, found - 1)`, which drops the character before the colon;
      when there is no colon, or it comes first, the unsigned `found - 1`
      is huge and the whole token is taken. */
  function PlayerIpAsWritten(token: string): string
  {
    var k := IndexOf(token, ':');
    if k == |token| || k == 0 then token else token[..k - 1]
  }

  /** The address part of an `ip:port` token: everything before the first
      colon (the whole token when it has none). */
  function PlayerIp(token: string): string
  {
    token[..IndexOf(token, ':')]
  }

  /** The port part of an `ip:port` token: everything after the first colon
      (the whole token when it has none, as `npos + 1` is 0). */
  function PlayerPort(token: string): string
  {
    var k := IndexOf(token, ':');
    if k == |token| then token else token[k + 1..]
  }

  /** The address and the port are the two sides of the first colon. */
  lemma IpPortSplit(token: string)
    requires ':' in token
    ensures PlayerIp(token) + ":" + PlayerPort(token) == token
    ensures ':' !in PlayerIp(token)
  {
    var k := IndexOf(token, ':');
    assert k < |token|;
    assert token == token[..k] + [token[k]] + token[k + 1..];
  }

  /** On the sample token `127.0.0.1:2302` the address as written loses
      its last digit, and the corrected one keeps it. */
  lemma PlayerIpDropsCharacter()
    ensures PlayerIpAsWritten("127.0.0.1:2302") == "127.0.0."
    ensures PlayerIp("127.0.0.1:2302") == "127.0.0.1"
  {
    IndexOfAt("127.0.0.1:2302", ':', 9);
  }

  /** The GUID as the client computes it from the GUID token and the NUMBER
      of tokens on the line: `substr(0, count - 4)` for a verified player,
      `substr(0, count - 12)` otherwise (a huge unsigned count, so the whole
      token, when there are fewer than 12 tokens). */
  function GuidAsWritten(token: string, count: nat): string
    requires count >= 5
  {
    if EndsWith(token, "(OK)") then token[..Min(count - 4, |token|)]
    else if count >= 12 then token[..Min(count - 12, |token|)]
    else token
  }

  function Min(a: int, b: int): int
  {
    if a <= b then a else b
  }

  /** The GUID with the LENGTH of the token in place of the token count: the
      token less its `(OK)` marker for a verified player; for any other
      player the token less its last 12 characters, or all of it when it is
      shorter. */
  function Guid(token: string): (guid: string)
    ensures EndsWith(token, "(OK)") ==> guid + "(OK)" == token
    ensures guid <= token
  {
    if EndsWith(token, "(OK)") then token[..|token| - 4]
    else if |token| >= 12 then token[..|token| - 12]
    else token
  }

  /** On a five-token line with the token `guid123(OK)` the GUID as
      written is cut to a single character; the corrected one is the token
      less its marker. */
  lemma GuidTrimmedByCount()
    ensures GuidAsWritten("guid123(OK)", 5) == "g"
    ensures Guid("guid123(OK)") == "guid123"
  {
  }

  /** The player name: the text two characters after the first `)` of the
      line. With no `)` the unsigned `npos + 2` is 1 and the name is the
      line from its second character; when `)` ends the line the offset is
      past the end and the client throws. */
  function PlayerName(line: string): Option<string>
  {
    var k := IndexOf(line, ')');
    if k == |line| then (if |line| >= 1 then Some(line[1..]) else None)
    else if k + 2 <= |line| then Some(line[k + 2..])
    else None
  }

  /** The tokens a player line is read from. */
  function PlayerTokens(line: string): seq<string>
  {
    Tokenize(CollapseSpaces(line), ' ')
  }

  /** One line of a player listing. */
  function ParsePlayerLine(line: string): PlayerLine
  {
    var tokens := PlayerTokens(line);
    if |tokens| < 5 then TooFewTokens
    else match PlayerName(line)
      case None => NameOutOfRange
      case Some(name) =>
        Player(PlayerRecord(tokens[0], PlayerIp(tokens[1]), PlayerPort(tokens[1]), tokens[2],
                            Guid(tokens[3]), EndsWith(tokens[3], "(OK)"), name))
  }

  /** What a parsed player line says about its tokens: a line is parsed
      exactly when it has at least five tokens; the slot is token 0, the
      ping token 2; address and port are the sides of token 1's first colon,
      and both are the whole token when it has none; the player is verified
      exactly when token 3 ends in `(OK)`, and then the GUID is token 3 less
      the marker; every GUID is a prefix of token 3. The name is the rest of
      the line from two characters after its first `)` (from its second
      character when it has none), and the line is refused for its name
      exactly when its first `)` is its last character. */
  lemma ParsePlayerLineSpec(line: string)
    ensures ParsePlayerLine(line) == TooFewTokens <==> |PlayerTokens(line)| < 5
    ensures ParsePlayerLine(line) == NameOutOfRange <==>
      |PlayerTokens(line)| >= 5 && ')' in line && ')' !in line[..|line| - 1]
    ensures ParsePlayerLine(line).Player? ==>
      var tokens, r := PlayerTokens(line), ParsePlayerLine(line).record;
      && r.number == tokens[0]
      && r.ping == tokens[2]
      && (':' in tokens[1] ==> r.ip + ":" + r.port == tokens[1] && ':' !in r.ip)
      && (':' !in tokens[1] ==> r.ip == tokens[1] && r.port == tokens[1])
      && (r.verified <==> EndsWith(tokens[3], "(OK)"))
      && (r.verified ==> r.guid + "(OK)" == tokens[3])
      && r.guid <= tokens[3]
      && ' ' !in r.number
      && r.name == line[|line| - |r.name|..]
      && (')' !in line ==> r.name == line[1..])
      && (')' in line ==>
            |r.name| + 2 <= |line| && line[|line| - |r.name| - 2] == ')'
            && ')' !in line[..|line| - |r.name| - 2])
  {
    var tokens := PlayerTokens(line);
    TokenizeJoin(CollapseSpaces(line), ' ');
    if |tokens| >= 5 && ':' in tokens[1] {
      IpPortSplit(tokens[1]);
    }
    if line == [] {
      assert CollapseSpaces(line) == [];
    }
    var k := IndexOf(line, ')');
    assert ')' in line <==> k < |line|;
    if ')' in line && |line| >= 1 {
      assert ')' !in line[..|line| - 1] <==> k == |line| - 1 by {
        if k < |line| - 1 {
          assert line[..|line| - 1][k] == ')';
        }
      }
    }
  }

  /** The line range the player loop visits, in the unsigned arithmetic of
      `tokens.count() - 1`. A count is below 2^64, so only an empty listing
      wraps round, to 2^64 - 1 (2^32 - 1 where `size_t` has 32 bits; either
      is above 3). */
  function LoopBoundAsWritten(count: nat): (bound: nat)
    ensures count == 0 ==> bound > 3
  {
    if count == 0 then 0xFFFF_FFFF_FFFF_FFFF else count - 1
  }

  /** The lines of a listing holding players: all but the three header
      lines and the closing line. */
  function PlayerListingLines(lines: seq<string>): (players: seq<string>)
    ensures |lines| < 4 ==> players == []
    ensures |lines| >= 4 ==>
              (|players| == |lines| - 4 && forall k :: 0 <= k < |players| ==> players[k] == lines[3 + k])
  {
    if |lines| >= 4 then lines[3..|lines| - 1] else []
  }

  /** The player lines of a listing parsed one by one, as the client does.
      Only lines 3 to count - 2 are read, so the header and the closing line
      are never parsed, and no line past the end is read. */
  method ParsePlayers(message: string) returns (players: seq<PlayerLine>)
    ensures var lines := PlayerListingLines(Tokenize(message, '\n'));
      |players| == |lines| &&
      forall k :: 0 <= k < |players| ==> players[k] == ParsePlayerLine(lines[k])
  {
    var tokens := Tokenize(message, '\n');
    players := [];
    var i := 3;
    while i < |tokens| - 1
      invariant 3 <= i
      invariant |tokens| >= 4 ==> i <= |tokens| - 1
      invariant |tokens| < 4 ==> i == 3
      invariant |players| == i - 3
      invariant forall k :: 0 <= k < |players| ==> players[k] == ParsePlayerLine(tokens[3 + k])
    {
      players := players + [ParsePlayerLine(tokens[i])];
      i := i + 1;
    }
  }

  /** The player loop with its bound as written. A read of a line past the
      end, where Poco throws a range error, ends the loop with `pastEnd`
      set. That happens exactly for an empty message; for any other message
      the loop parses the same lines as `ParsePlayers`. */
  method ParsePlayersAsWritten(message: string) returns (players: seq<PlayerLine>, pastEnd: bool)
    ensures pastEnd <==> message == []
    ensures !pastEnd ==>
      var lines := PlayerListingLines(Tokenize(message, '\n'));
      |players| == |lines| &&
      forall k :: 0 <= k < |players| ==> players[k] == ParsePlayerLine(lines[k])
  {
    var tokens := Tokenize(message, '\n');
    var bound := LoopBoundAsWritten(|tokens|);
    players, pastEnd := [], false;
    var i := 3;
    while i < bound
      invariant 3 <= i
      invariant |tokens| >= 4 ==> i <= |tokens| - 1
      invariant |tokens| < 4 ==> i == 3
      invariant |players| == i - 3
      invariant forall k :: 0 <= k < |players| ==> players[k] == ParsePlayerLine(tokens[3 + k])
      decreases bound - i
    {
      if i >= |tokens| {
        return players, true;
      }
      players := players + [ParsePlayerLine(tokens[i])];
      i := i + 1;
    }
  }
}

/** The WHOIS side tool: the parser of a WHOIS response into `key: value` entries and the
    decision to follow a registrar's referral. The network client is a parameter. */
module Whois {
  import opened Text
  import opened Records

  /** `String.indexOf(c)`: the first position of `c` in `s`. */
  function IndexOf(s: string, c: char): (r: Option<nat>)
    ensures r.None? <==> c !in s
    ensures r.Some? ==> r.value < |s| && s[r.value] == c && c !in s[..r.value]
  {
    if s == [] then None
    else if s[0] == c then Some(0)
    else
      match IndexOf(s[1..], c)
      case None => None
      case Some(i) =>
        assert s[..i + 1] == [s[0]] + s[1..][..i];
        Some(i + 1)
  }

  // ---- `split("\\r?\\n")` ----

  /** A piece that ended at a line feed loses the carriage return in front of it. */
  function DropCr(piece: string): string
  {
    if piece != [] && piece[|piece| - 1] == '\r' then piece[..|piece| - 1] else piece
  }

  /** The text cut at every line feed, each carriage return just before one dropped. */
  function Pieces(s: string): (r: seq<string>)
    ensures |r| >= 1
    decreases |s|
  {
    match IndexOf(s, '\n')
    case None => [s]
    case Some(i) => [DropCr(s[..i])] + Pieces(s[i + 1..])
  }

  /** `String.split` drops the empty strings at the end of the result. */
  function DropTrailingEmpty(pieces: seq<string>): (r: seq<string>)
    ensures |r| <= |pieces| && r == pieces[..|r|]
    ensures forall i :: |r| <= i < |pieces| ==> pieces[i] == ""
  {
    if pieces != [] && pieces[|pieces| - 1] == "" then DropTrailingEmpty(pieces[..|pieces| - 1]) else pieces
  }

  /** The lines of a response. A text without a line feed is its own single line, even when
      empty. */
  function Lines(s: string): seq<string>
  {
    if '\n' !in s then [s] else DropTrailingEmpty(Pieces(s))
  }

  /** The lines joined by line feeds. */
  function JoinLines(lines: seq<string>): string
    requires |lines| >= 1
  {
    if |lines| == 1 then lines[0] else lines[0] + "\n" + JoinLines(lines[1..])
  }

  /** The first line feed of a text joined at a line feed is the joining one. */
  lemma {:induction false} IndexOfJoin(a: string, b: string)
    requires '\n' !in a
    ensures IndexOf(a + "\n" + b, '\n') == Some(|a|)
  {
    if a != [] {
      assert (a + "\n" + b)[1..] == a[1..] + "\n" + b;
      IndexOfJoin(a[1..], b);
    }
  }

  /** Cutting a text joined at a line feed gives the part before it, then the pieces after. */
  lemma PiecesOfCons(a: string, b: string)
    requires '\n' !in a
    ensures Pieces(a + "\n" + b) == [DropCr(a)] + Pieces(b)
  {
    var s := a + "\n" + b;
    IndexOfJoin(a, b);
    assert s[..|a|] == a;
    assert s[|a| + 1..] == b;
  }

  /** Cutting at line feeds undoes joining lines with line feeds, when no line holds a line feed
      or ends with a carriage return. */
  lemma {:induction false} PiecesOfJoin(lines: seq<string>)
    requires |lines| >= 1
    requires forall i :: 0 <= i < |lines| ==> '\n' !in lines[i] && DropCr(lines[i]) == lines[i]
    ensures Pieces(JoinLines(lines)) == lines
  {
    if |lines| > 1 {
      PiecesOfCons(lines[0], JoinLines(lines[1..]));
      PiecesOfJoin(lines[1..]);
      assert lines == [lines[0]] + lines[1..];
    }
  }

  /** The lines of a text joined from lines are those lines, unless the text ends in empty
      lines, which `split` drops. */
  lemma LinesOfJoin(lines: seq<string>)
    requires |lines| >= 1
    requires forall i :: 0 <= i < |lines| ==> '\n' !in lines[i] && DropCr(lines[i]) == lines[i]
    requires |lines| == 1 || lines[|lines| - 1] != ""
    ensures Lines(JoinLines(lines)) == lines
  {
    if |lines| > 1 {
      var s := JoinLines(lines);
      assert s == lines[0] + "\n" + JoinLines(lines[1..]);
      assert s[|lines[0]|] == '\n';
      PiecesOfJoin(lines);
    }
  }

  // ---- `parse` ----

  /** The entry a line gives: the text before its first colon, trimmed and lower-cased, and
      the text after that colon, trimmed. A line without a colon gives none. */
  function Entry(line: string): (r: Option<(string, string)>)
    ensures r.None? <==> ':' !in line
    ensures r.Some? ==> IsLower(r.value.0)
  {
    match IndexOf(line, ':')
    case None => None
    case Some(i) => Some((Lower(Trim(line[..i])), Trim(line[i + 1..])))
  }

  /** The entries of the lines, put into the map one after the other. */
  function Entries(lines: seq<string>): map<string, string>
  {
    if lines == [] then map[]
    else
      var m := Entries(lines[..|lines| - 1]);
      match Entry(lines[|lines| - 1])
      case None => m
      case Some(e) => m[e.0 := e.1]
  }

  /** `parse`. */
  method Parse(response: string) returns (result: map<string, string>)
    ensures result == Entries(Lines(response))
  {
    var lines := Lines(response);
    result := map[];
    assert lines[..0] == [];
    for i := 0 to |lines|
      invariant result == Entries(lines[..i])
    {
      assert lines[..i + 1][..i] == lines[..i];
      var sep := IndexOf(lines[i], ':');
      if sep.Some? {
        var key := Trim(lines[i][..sep.value]);
        var value := Trim(lines[i][sep.value + 1..]);
        result := result[Lower(key) := value];
      }
    }
    assert lines[..|lines|] == lines;
  }

  /** Every key of a parsed response is lower-case. */
  lemma {:induction false} EntriesKeysLower(lines: seq<string>)
    ensures forall k :: k in Entries(lines) ==> IsLower(k)
  {
    if lines != [] {
      EntriesKeysLower(lines[..|lines| - 1]);
    }
  }

  /** Some line gives an entry with key `k`. */
  ghost predicate GivesKey(lines: seq<string>, k: string)
  {
    exists i :: 0 <= i < |lines| && Entry(lines[i]).Some? && Entry(lines[i]).value.0 == k
  }

  lemma GivesKeySnoc(lines: seq<string>, k: string)
    requires lines != []
    ensures GivesKey(lines, k)
            <==> GivesKey(lines[..|lines| - 1], k)
                 || (Entry(lines[|lines| - 1]).Some? && Entry(lines[|lines| - 1]).value.0 == k)
  {
    var init := lines[..|lines| - 1];
    if GivesKey(init, k) {
      var i :| 0 <= i < |init| && Entry(init[i]).Some? && Entry(init[i]).value.0 == k;
      assert lines[i] == init[i];
    }
    if GivesKey(lines, k) {
      var i :| 0 <= i < |lines| && Entry(lines[i]).Some? && Entry(lines[i]).value.0 == k;
      if i < |init| {
        assert init[i] == lines[i];
      }
    }
  }

  /** A key is in the result exactly when some line gives an entry with that key. */
  lemma {:induction false} EntriesKeys(lines: seq<string>, k: string)
    ensures k in Entries(lines) <==> GivesKey(lines, k)
  {
    if lines != [] {
      EntriesKeys(lines[..|lines| - 1], k);
      GivesKeySnoc(lines, k);
    }
  }

  /** When a key repeats, the value of its last line wins. */
  lemma {:induction false} LastWins(lines: seq<string>, i: nat, k: string, v: string)
    requires i < |lines| && Entry(lines[i]) == Some((k, v))
    requires forall j :: i < j < |lines| ==> Entry(lines[j]).None? || Entry(lines[j]).value.0 != k
    ensures k in Entries(lines) && Entries(lines)[k] == v
  {
    var init := lines[..|lines| - 1];
    if i < |lines| - 1 {
      forall j | i < j < |init| ensures Entry(init[j]).None? || Entry(init[j]).value.0 != k {
        assert init[j] == lines[j];
      }
      LastWins(init, i, k, v);
    }
  }

  /** A line without a colon contributes nothing, wherever it stands. */
  lemma {:induction false} LineWithoutColon(before: seq<string>, line: string, after: seq<string>)
    requires ':' !in line
    ensures Entries(before + [line] + after) == Entries(before + after)
  {
    if after == [] {
      assert (before + [line] + after)[..|before| + 1 - 1] == before;
      assert before + after == before;
    } else {
      var a := after[..|after| - 1];
      var last := after[|after| - 1];
      LineWithoutColon(before, line, a);
      assert (before + [line] + after)[..|before + [line] + after| - 1] == before + [line] + a;
      assert (before + after)[..|before + after| - 1] == before + a;
    }
  }

  /** Only the first colon separates key from value: the value may hold more colons. */
  lemma FirstColonSplits(key: string, value: string)
    requires ':' !in key
    ensures Entry(key + ":" + value) == Some((Lower(Trim(key)), Trim(value)))
  {
    var line := key + ":" + value;
    assert line[..|key|] == key;
    assert line[|key|] == ':';
    assert IndexOf(line, ':') == Some(|key|);
    assert line[|key| + 1..] == value;
  }

  /** Trimming a text without blanks at its ends changes nothing. */
  lemma TrimmedAlready(s: string)
    requires s != [] && !IsBlank(s[0]) && !IsBlank(s[|s| - 1])
    ensures Trim(s) == s
  {
    assert TrimStart(s) == s;
    assert TrimEnd(s) == s;
  }

  lemma NameServerKey()
    ensures Lower(Trim("Name Server")) == "name server"
  {
    TrimmedAlready("Name Server");
    var l := Lower("Name Server");
    assert l[0] == 'n' && l[5] == 's';
    assert l == "name server";
  }

  lemma NameServerValue()
    ensures Trim(" NS2.DNSOWL.COM") == "NS2.DNSOWL.COM"
  {
    var v := "NS2.DNSOWL.COM";
    assert (" " + v)[1..] == v;
    assert TrimStart(" " + v) == TrimStart(v);
    assert TrimStart(v) == v;
    assert TrimEnd(v) == v;
  }

  lemma NameServerLine()
    ensures Entry("Name Server: NS2.DNSOWL.COM") == Some(("name server", "NS2.DNSOWL.COM"))
  {
    assert "Name Server: NS2.DNSOWL.COM" == "Name Server" + ":" + " NS2.DNSOWL.COM";
    FirstColonSplits("Name Server", " NS2.DNSOWL.COM");
    NameServerKey();
    NameServerValue();
  }

  /** The repeated `Name Server` lines of a response keep the last value. */
  lemma RepeatedNameServer(lines: seq<string>)
    requires |lines| == 2 && lines[1] == "Name Server: NS2.DNSOWL.COM"
    ensures "name server" in Entries(lines) && Entries(lines)["name server"] == "NS2.DNSOWL.COM"
  {
    NameServerLine();
    LastWins(lines, 1, "name server", "NS2.DNSOWL.COM");
  }

  // ---- `query` ----

  /** `WhoisClient.DEFAULT_HOST` of Apache Commons Net. */
  const DefaultHost: string := "whois.internic.net"

  /** The entry naming the registrar's own WHOIS server, as `query` looks it up. */
  const ReferralKey: string := "registrar whois server"

  /** The server `query` asks next, if any: the registrar's server, lower-cased, when the first
      answer names one that is not the default host in any case. */
  function Referral(info: map<string, string>): (r: Option<string>)
    ensures r.Some? <==> ReferralKey in info && !EqualsIgnoreCase(info[ReferralKey], DefaultHost)
    ensures r.Some? ==> IsLower(r.value) && r.value != DefaultHost
                        && EqualsIgnoreCase(r.value, info[ReferralKey])
  {
    if ReferralKey in info && !EqualsIgnoreCase(info[ReferralKey], DefaultHost) then
      var server := Lower(info[ReferralKey]);
      LowerOfLower(server);
      LowerOfLower(DefaultHost);
      Some(server)
    else
      None
  }

  /** `query`: asks the default host, then follows a referral to another server once. The
      network client `queryDirect` (with its empty answer on an I/O error) is a parameter. */
  method Query(queryDirect: (string, string) -> map<string, string>, domain: string)
    returns (info: map<string, string>)
    ensures var first := queryDirect(DefaultHost, domain);
            match Referral(first)
            case None => info == first
            case Some(server) => info == queryDirect(server, domain)
  {
    var server := DefaultHost;
    info := queryDirect(server, domain);
    var canonical := if ReferralKey in info then Some(info[ReferralKey]) else None;
    if canonical.Some? && !EqualsIgnoreCase(canonical.value, server) {
      info := queryDirect(Lower(canonical.value), domain);
    }
  }

  /** A referral back to the default host, in whatever case it is written, is not followed. */
  lemma NoReferralToDefault(info: map<string, string>)
    requires ReferralKey in info && Lower(info[ReferralKey]) == DefaultHost
    ensures Referral(info) == None
  {
    LowerOfLower(DefaultHost);
  }
}

/** The record-set specification: the comma-separated `RecordSet` string of
    the options, split into tokens and turned into `DnsRecord`s relative to
    the zone `Domain` (TimedDnsZoneUpdaterOptions.GetRecords, without its
    cache; the cache lives in module UpdaterOptions). */
module RecordSet {

  const Comma: char := ','
  const Apex: string := "@"

  /** A record to keep current: `name` addresses the A record set in the
      zone, `hostName` is the fully qualified name that is resolved. */
  datatype DnsRecord = DnsRecord(name: string, hostName: string)

  // ---------------------------------------------------------------------
  // Splitting

  /** `s.Split(sep)` with no options: every separator ends a part, so
      there is always one part more than there are separators and parts
      may be empty. */
  function Split(s: string, sep: char): (parts: seq<string>)
    ensures |parts| >= 1
    ensures forall p :: p in parts ==> sep !in p
    decreases |s|
  {
    if s == [] then [""]
    else
      var rest := Split(s[1..], sep);
      if s[0] == sep then [""] + rest
      else [[s[0]] + rest[0]] + rest[1..]
  }

  /** The inverse of Split: the parts glued back with the separator. */
  function Join(parts: seq<string>, sep: char): string
    decreases |parts|
  {
    if |parts| == 0 then ""
    else if |parts| == 1 then parts[0]
    else parts[0] + [sep] + Join(parts[1..], sep)
  }

  /** Keeps the non-empty parts, in order (`StringSplitOptions.RemoveEmptyEntries`). */
  function RemoveEmpty(parts: seq<string>): (kept: seq<string>)
    ensures |kept| <= |parts|
    ensures forall p :: p in kept <==> p in parts && p != ""
    decreases |parts|
  {
    if parts == [] then []
    else if parts[0] == "" then RemoveEmpty(parts[1..])
    else [parts[0]] + RemoveEmpty(parts[1..])
  }

  /** The tokens of a record-set string: `RecordSet.Split(",", RemoveEmptyEntries)`. */
  function Tokens(recordSet: string): (tokens: seq<string>)
    ensures forall t :: t in tokens ==> t != "" && Comma !in t
    ensures forall t :: t in Split(recordSet, Comma) && t != "" ==> t in tokens
  {
    RemoveEmpty(Split(recordSet, Comma))
  }

  /** All the characters of the parts, in order. */
  function Flatten(parts: seq<string>): string
    decreases |parts|
  {
    if parts == [] then "" else parts[0] + Flatten(parts[1..])
  }

  /** The string with every occurrence of `c` taken out. */
  function Without(s: string, c: char): string
    decreases |s|
  {
    if s == [] then ""
    else if s[0] == c then Without(s[1..], c)
    else [s[0]] + Without(s[1..], c)
  }

  // ---------------------------------------------------------------------
  // From tokens to records

  /** The record of one token: the apex token names the zone itself,
      any other label `t` names `t.Domain`. */
  function ToRecord(token: string, domain: string): (r: DnsRecord)
    ensures r.name == token
    ensures r.hostName == domain <==> token == Apex
    ensures |domain| <= |r.hostName| && r.hostName[|r.hostName| - |domain|..] == domain
  {
    if token == Apex then DnsRecord(token, domain)
    else DnsRecord(token, token + "." + domain)
  }

  /** `tokens.Select(ToRecord)`: one record per token, position by position. */
  function ToRecords(tokens: seq<string>, domain: string): (recs: seq<DnsRecord>)
    ensures |recs| == |tokens|
    ensures forall i :: 0 <= i < |tokens| ==> recs[i] == ToRecord(tokens[i], domain)
    decreases |tokens|
  {
    if tokens == [] then [] else [ToRecord(tokens[0], domain)] + ToRecords(tokens[1..], domain)
  }

  /** What GetRecords computes on a cache miss. */
  function ParseRecords(recordSet: string, domain: string): (records: seq<DnsRecord>)
    ensures |records| == |Tokens(recordSet)|
    ensures forall i :: 0 <= i < |records| ==> records[i].name == Tokens(recordSet)[i]
    ensures forall r :: r in records ==>
      |domain| <= |r.hostName| && r.hostName[|r.hostName| - |domain|..] == domain
  {
    ToRecords(Tokens(recordSet), domain)
  }

  // ---------------------------------------------------------------------
  // Properties of splitting

  /** Splitting loses nothing: joining the parts gives the input back. */
  lemma {:induction false} JoinSplit(s: string, sep: char)
    ensures Join(Split(s, sep), sep) == s
    decreases |s|
  {
    if s != [] {
      var rest := Split(s[1..], sep);
      JoinSplit(s[1..], sep);
      if s[0] == sep {
        assert Split(s, sep) == [""] + rest;
        assert ([""] + rest)[1..] == rest;
      } else {
        var parts := [[s[0]] + rest[0]] + rest[1..];
        assert Split(s, sep) == parts;
        if |rest| == 1 {
          assert Join(rest, sep) == rest[0];
        } else {
          assert parts[1..] == rest[1..];
          assert Join(rest, sep) == rest[0] + [sep] + Join(rest[1..], sep);
        }
      }
    }
  }

  /** Splitting at a separator splits the two sides independently. */
  lemma {:induction false} SplitAppend(s: string, sep: char, t: string)
    ensures Split(s + [sep] + t, sep) == Split(s, sep) + Split(t, sep)
    decreases |s|
  {
    if s == [] {
      assert s + [sep] + t == [sep] + t;
      assert ([sep] + t)[1..] == t;
    } else {
      SplitAppend(s[1..], sep, t);
      SplitAppendCons(s, sep, t);
    }
  }

  /** The inductive step of SplitAppend: one more character in front. */
  lemma SplitAppendCons(s: string, sep: char, t: string)
    requires s != []
    requires Split(s[1..] + [sep] + t, sep) == Split(s[1..], sep) + Split(t, sep)
    ensures Split(s + [sep] + t, sep) == Split(s, sep) + Split(t, sep)
  {
    var u := s + [sep] + t;
    assert u[0] == s[0] && u[1..] == s[1..] + [sep] + t;
    if s[0] == sep {
      SplitStartsWithSeparator(u, sep);
      SplitStartsWithSeparator(s, sep);
    } else {
      var left := Split(s[1..], sep);
      var right := Split(t, sep);
      ConsHeadAppend([s[0]], left, right);
      SplitStartsWithOther(u, sep);
      SplitStartsWithOther(s, sep);
    }
  }

  lemma SplitStartsWithSeparator(s: string, sep: char)
    requires s != [] && s[0] == sep
    ensures Split(s, sep) == [""] + Split(s[1..], sep)
  {
  }

  lemma SplitStartsWithOther(s: string, sep: char)
    requires s != [] && s[0] != sep
    ensures Split(s, sep) == [[s[0]] + Split(s[1..], sep)[0]] + Split(s[1..], sep)[1..]
  {
  }

  /** Extending the first part of a non-empty list of parts commutes with
      appending more parts. */
  lemma ConsHeadAppend(c: string, left: seq<string>, right: seq<string>)
    requires left != []
    ensures [c + (left + right)[0]] + (left + right)[1..] == ([c + left[0]] + left[1..]) + right
  {
    assert (left + right)[0] == left[0];
    assert (left + right)[1..] == left[1..] + right;
  }

  lemma {:induction false} RemoveEmptyAppend(a: seq<string>, b: seq<string>)
    ensures RemoveEmpty(a + b) == RemoveEmpty(a) + RemoveEmpty(b)
    decreases |a|
  {
    if a == [] {
      assert a + b == b;
    } else {
      assert (a + b)[0] == a[0];
      assert (a + b)[1..] == a[1..] + b;
      RemoveEmptyAppend(a[1..], b);
    }
  }

  /** A record set joined at a comma yields the tokens of each side, in
      order and without deduplication. */
  lemma TokensAppend(s: string, t: string)
    ensures Tokens(s + [Comma] + t) == Tokens(s) + Tokens(t)
  {
    SplitAppend(s, Comma, t);
    RemoveEmptyAppend(Split(s, Comma), Split(t, Comma));
  }

  /** Splitting a string made only of separators gives only empty parts. */
  lemma {:induction false} SplitOnlySeparators(s: string, sep: char)
    requires forall i :: 0 <= i < |s| ==> s[i] == sep
    ensures forall p :: p in Split(s, sep) ==> p == ""
    decreases |s|
  {
    if s != [] {
      SplitOnlySeparators(s[1..], sep);
    }
  }

  lemma {:induction false} RemoveEmptyAllEmpty(parts: seq<string>)
    requires forall p :: p in parts ==> p == ""
    ensures RemoveEmpty(parts) == []
    decreases |parts|
  {
    if parts != [] {
      assert parts[0] in parts;
      assert forall p :: p in parts[1..] ==> p in parts;
      RemoveEmptyAllEmpty(parts[1..]);
    }
  }

  /** An empty record set, or one of commas only, has no tokens. */
  lemma OnlyCommasNoTokens(recordSet: string)
    requires forall i :: 0 <= i < |recordSet| ==> recordSet[i] == Comma
    ensures Tokens(recordSet) == []
  {
    SplitOnlySeparators(recordSet, Comma);
    RemoveEmptyAllEmpty(Split(recordSet, Comma));
  }

  lemma {:induction false} SplitNoSeparator(s: string, sep: char)
    requires sep !in s
    ensures Split(s, sep) == [s]
    decreases |s|
  {
    if s != [] {
      assert sep !in s[1..] by {
        assert forall i :: 0 <= i < |s[1..]| ==> s[1..][i] == s[i + 1];
      }
      SplitNoSeparator(s[1..], sep);
      assert [s[0]] + s[1..] == s;
    }
  }

  /** A single label with no comma is one token, taken verbatim. */
  lemma SingleLabel(token: string)
    requires token != "" && Comma !in token
    ensures Tokens(token) == [token]
  {
    SplitNoSeparator(token, Comma);
    assert [token][1..] == [];
    assert RemoveEmpty([token]) == [token] + RemoveEmpty([]);
  }

  lemma {:induction false} FlattenSplit(s: string, sep: char)
    ensures Flatten(Split(s, sep)) == Without(s, sep)
    decreases |s|
  {
    if s != [] {
      FlattenSplit(s[1..], sep);
      var rest := Split(s[1..], sep);
      if s[0] != sep {
        assert Flatten(rest) == rest[0] + Flatten(rest[1..]);
        assert Split(s, sep)[1..] == rest[1..];
      } else {
        assert Split(s, sep)[1..] == rest;
      }
    }
  }

  lemma {:induction false} FlattenRemoveEmpty(parts: seq<string>)
    ensures Flatten(RemoveEmpty(parts)) == Flatten(parts)
    decreases |parts|
  {
    if parts != [] {
      FlattenRemoveEmpty(parts[1..]);
      if parts[0] != "" {
        assert ([parts[0]] + RemoveEmpty(parts[1..]))[1..] == RemoveEmpty(parts[1..]);
      }
    }
  }

  /** Tokens are not trimmed: together they hold every non-comma character
      of the record set (spaces included), in order. */
  lemma TokensKeepEveryOtherCharacter(recordSet: string)
    ensures Flatten(Tokens(recordSet)) == Without(recordSet, Comma)
  {
    FlattenRemoveEmpty(Split(recordSet, Comma));
    FlattenSplit(recordSet, Comma);
  }

  // ---------------------------------------------------------------------
  // Properties of the records

  /** One record per token, in token order; the name is the token itself;
      the apex token resolves the zone name, any other the label under it. */
  lemma ParseRecordsShape(recordSet: string, domain: string)
    ensures |ParseRecords(recordSet, domain)| == |Tokens(recordSet)|
    ensures forall i :: 0 <= i < |Tokens(recordSet)| ==>
      var r := ParseRecords(recordSet, domain)[i];
      var t := Tokens(recordSet)[i];
      && r.name == t
      && (t == Apex ==> r.hostName == domain)
      && (t != Apex ==> r.hostName == t + "." + domain)
  {
  }

  /** Every parsed record has a non-empty name without commas. */
  lemma ParsedNamesWellFormed(recordSet: string, domain: string)
    ensures forall r :: r in ParseRecords(recordSet, domain) ==> r.name != "" && Comma !in r.name
  {
    var rs := ParseRecords(recordSet, domain);
    forall r | r in rs
      ensures r.name != "" && Comma !in r.name
    {
      var i :| 0 <= i < |rs| && rs[i] == r;
      assert Tokens(recordSet)[i] in Tokens(recordSet);
    }
  }

  lemma {:induction false} ToRecordsAppend(a: seq<string>, b: seq<string>, domain: string)
    ensures ToRecords(a + b, domain) == ToRecords(a, domain) + ToRecords(b, domain)
    decreases |a|
  {
    if a == [] {
      assert a + b == b;
    } else {
      assert (a + b)[1..] == a[1..] + b;
      ToRecordsAppend(a[1..], b, domain);
    }
  }

  /** No deduplication: a record set listed twice yields every record twice. */
  lemma RepeatedLabelsRepeatRecords(recordSet: string, domain: string)
    ensures ParseRecords(recordSet + [Comma] + recordSet, domain)
         == ParseRecords(recordSet, domain) + ParseRecords(recordSet, domain)
  {
    TokensAppend(recordSet, recordSet);
    ToRecordsAppend(Tokens(recordSet), Tokens(recordSet), domain);
  }

  /** An empty or comma-only record set yields no records. */
  lemma OnlyCommasNoRecords(recordSet: string, domain: string)
    requires forall i :: 0 <= i < |recordSet| ==> recordSet[i] == Comma
    ensures ParseRecords(recordSet, domain) == []
  {
    OnlyCommasNoTokens(recordSet);
  }

  /** Three comma-separated labels give three records, in order. */
  lemma ThreeLabels(a: string, b: string, c: string, domain: string)
    requires a != "" && Comma !in a
    requires b != "" && Comma !in b
    requires c != "" && Comma !in c
    ensures ParseRecords(a + [Comma] + b + [Comma] + c, domain)
         == [ToRecord(a, domain), ToRecord(b, domain), ToRecord(c, domain)]
  {
    var tail := b + [Comma] + c;
    assert a + [Comma] + b + [Comma] + c == a + [Comma] + tail;
    TokensAppend(a, tail);
    TokensAppend(b, c);
    SingleLabel(a);
    SingleLabel(b);
    SingleLabel(c);
    assert Tokens(a + [Comma] + tail) == [a, b, c];
  }

  /** The worked example: apex, then two labels, in input order. */
  lemma ApexAndTwoLabels(recordSet: string, domain: string)
    requires recordSet == "@,www,api"
    ensures ParseRecords(recordSet, domain)
         == [DnsRecord("@", domain), DnsRecord("www", "www." + domain), DnsRecord("api", "api." + domain)]
  {
    calc {
      ParseRecords(recordSet, domain);
      { assert recordSet == "@" + [Comma] + "www" + [Comma] + "api"; }
      ParseRecords("@" + [Comma] + "www" + [Comma] + "api", domain);
      { ThreeLabels("@", "www", "api", domain); }
      [ToRecord("@", domain), ToRecord("www", domain), ToRecord("api", domain)];
      { assert |"www"| != |Apex| && |"api"| != |Apex|;
        assert ToRecord("www", domain) == DnsRecord("www", "www." + domain);
        assert ToRecord("api", domain) == DnsRecord("api", "api." + domain); }
      [DnsRecord("@", domain), DnsRecord("www", "www." + domain), DnsRecord("api", "api." + domain)];
    }
  }



}

/** String handling of the reconciliation step: the flight id taken from a line-item
    code, the temp-table name, and the quoted id list spliced into `IN (...)`. */
module Text {
  import opened Tables

  /** Python's slice `s[n:]`: everything from index n on, or "" when s is shorter. */
  function DropPrefix(s: string, n: nat): (r: string)
    ensures |r| == if n <= |s| then |s| - n else 0
    ensures forall i :: 0 <= i < |r| ==> r[i] == s[n + i]
  {
    if n <= |s| then s[n..] else ""
  }

  /** PostgreSQL `substring(s, start)` without a length: positions are 1-based and a
      start before the first character yields the whole string. */
  function SqlSubstringFrom(s: string, start: int): (r: string)
    ensures start <= 1 ==> r == s
    ensures |r| == if start <= 1 then |s| else if start - 1 <= |s| then |s| - (start - 1) else 0
    ensures start >= 1 ==> forall i :: 0 <= i < |r| ==> r[i] == s[start - 1 + i]
  {
    if start <= 1 then s
    else if start - 1 <= |s| then s[start - 1..]
    else ""
  }

  /** The flight id of a line-item code, as the expected-data query computes it. */
  function FlightOf(liCode: string): string {
    SqlSubstringFrom(liCode, 4)
  }

  /** The query's `substring(li_code, 4)` and the request's `processing_id[3:]`
      name the same flight. */
  lemma FlightOfIsSlice(liCode: string)
    ensures FlightOf(liCode) == DropPrefix(liCode, 3)
  {
    var a, b := FlightOf(liCode), DropPrefix(liCode, 3);
    assert |a| == |b|;
    forall i | 0 <= i < |a| ensures a[i] == b[i] { }
  }

  /** Python's `s.replace(c, "")`: every occurrence of c goes, and no other
      character (`RemoveCharCounts` adds: each other character stays as often as
      it occurs, and `RemoveCharConcat`: in order). */
  function RemoveChar(s: string, c: char): (r: string)
    ensures c !in r
    ensures forall x :: x in r <==> x in s && x != c
    ensures |r| <= |s|
    decreases |s|
  {
    if s == "" then ""
    else (if s[0] == c then "" else [s[0]]) + RemoveChar(s[1..], c)
  }

  /** Every character other than c is kept as often as it occurs. */
  lemma {:induction false} RemoveCharCounts(s: string, c: char)
    ensures multiset(RemoveChar(s, c)) == multiset(s)[c := 0]
    ensures |RemoveChar(s, c)| == |s| - multiset(s)[c]
    decreases |s|
  {
    if s != "" {
      var x, t := s[0], s[1..];
      assert s == [x] + t;
      RemoveCharCons(x, t, c);
      RemoveCharCounts(t, c);
    }
  }

  predicate IsUpper(c: char) {
    'A' <= c <= 'Z'
  }

  function LowerChar(c: char): (d: char)
    ensures !IsUpper(d)
    ensures !IsUpper(c) ==> d == c
    ensures IsUpper(c) ==> d as int == c as int + 32
  {
    if IsUpper(c) then (c as int - 'A' as int + 'a' as int) as char else c
  }

  /** Python's `s.lower()` on ASCII letters: each upper-case letter becomes its
      lower-case counterpart (32 code points on), every other character stays. */
  function Lower(s: string): (r: string)
    ensures |r| == |s|
    ensures forall i :: 0 <= i < |r| ==> !IsUpper(r[i])
    ensures forall i :: 0 <= i < |r| && IsUpper(s[i]) ==> r[i] as int == s[i] as int + 32
    ensures forall i :: 0 <= i < |r| && !IsUpper(s[i]) ==> r[i] == s[i]
  {
    seq(|s|, i requires 0 <= i < |s| => LowerChar(s[i]))
  }

  const TEMP_TABLE_PREFIX: string := "expected_temp_table_"

  /** `TEMP_TABLE_BASE_NAME.format(processing_id.replace("-", "")).lower()` */
  function TempTableName(processingId: string): (name: string)
    ensures |name| == |TEMP_TABLE_PREFIX| + |RemoveChar(processingId, '-')|
    ensures name[..|TEMP_TABLE_PREFIX|] == TEMP_TABLE_PREFIX
    ensures name[|TEMP_TABLE_PREFIX|..] == Lower(RemoveChar(processingId, '-'))
    ensures '-' !in name
    ensures forall i :: 0 <= i < |name| ==> !IsUpper(name[i])
  {
    var suffix := RemoveChar(processingId, '-');
    LowerConcat(TEMP_TABLE_PREFIX, suffix);
    assert Lower(TEMP_TABLE_PREFIX) == TEMP_TABLE_PREFIX;
    LowerAddsNoDash(suffix);
    var name := Lower(TEMP_TABLE_PREFIX + suffix);
    assert name == TEMP_TABLE_PREFIX + Lower(suffix);
    name
  }

  lemma LowerAddsNoDash(s: string)
    requires '-' !in s
    ensures '-' !in Lower(s)
  {
    forall i | 0 <= i < |s| ensures Lower(s)[i] != '-' {
      assert s[i] != '-' by { assert s[i] in s; }
    }
  }

  /** Two processing ids that differ only in dashes share one temp-table name. */
  lemma {:induction false} TempTableNameIgnoresDashes(processingId: string)
    ensures TempTableName(RemoveChar(processingId, '-')) == TempTableName(processingId)
  {
    RemoveCharIdempotent(processingId, '-');
  }

  /** Nor does letter case matter: lower-casing the id first gives the same name. */
  lemma TempTableNameIgnoresCase(processingId: string)
    ensures TempTableName(Lower(processingId)) == TempTableName(processingId)
  {
    RemoveCharLower(processingId, '-');
    LowerIdempotent(RemoveChar(processingId, '-'));
    var a, b := TempTableName(Lower(processingId)), TempTableName(processingId);
    assert a == a[..|TEMP_TABLE_PREFIX|] + a[|TEMP_TABLE_PREFIX|..];
    assert b == b[..|TEMP_TABLE_PREFIX|] + b[|TEMP_TABLE_PREFIX|..];
  }

  lemma LowerConcat(a: string, b: string)
    ensures Lower(a + b) == Lower(a) + Lower(b)
  {
    var l, r := Lower(a + b), Lower(a) + Lower(b);
    forall i | 0 <= i < |l| ensures l[i] == r[i] {
      if i < |a| { assert (a + b)[i] == a[i]; } else { assert (a + b)[i] == b[i - |a|]; }
    }
  }

  lemma LowerIdempotent(s: string)
    ensures Lower(Lower(s)) == Lower(s)
  {
  }

  /** Removing a character that is not a letter commutes with lower-casing. */
  lemma {:induction false} RemoveCharLower(s: string, c: char)
    requires !IsUpper(c) && !('a' <= c <= 'z')
    ensures RemoveChar(Lower(s), c) == Lower(RemoveChar(s, c))
    decreases |s|
  {
    if s != "" {
      var x, t := s[0], s[1..];
      var head := if x == c then "" else [x];
      assert s == [x] + t;
      LowerConcat([x], t);
      assert Lower([x]) == [LowerChar(x)];
      RemoveCharCons(LowerChar(x), Lower(t), c);
      RemoveCharCons(x, t, c);
      RemoveCharLower(t, c);
      LowerConcat(head, RemoveChar(t, c));
      assert (if LowerChar(x) == c then "" else [LowerChar(x)]) == Lower(head);
    }
  }

  lemma RemoveCharCons(x: char, s: string, c: char)
    ensures RemoveChar([x] + s, c) == (if x == c then "" else [x]) + RemoveChar(s, c)
  {
    assert ([x] + s)[0] == x;
    assert ([x] + s)[1..] == s;
  }

  lemma {:induction false} RemoveCharIdempotent(s: string, c: char)
    ensures RemoveChar(RemoveChar(s, c), c) == RemoveChar(s, c)
    decreases |s|
  {
    if s != "" {
      RemoveCharIdempotent(s[1..], c);
      var head := if s[0] == c then "" else [s[0]];
      RemoveCharConcat(head, RemoveChar(s[1..], c), c);
    }
  }

  lemma {:induction false} RemoveCharConcat(a: string, b: string, c: char)
    ensures RemoveChar(a + b, c) == RemoveChar(a, c) + RemoveChar(b, c)
    decreases |a|
  {
    if a != "" {
      var x, t := a[0], a[1..];
      assert a == [x] + t;
      assert a + b == [x] + (t + b);
      RemoveCharCons(x, t + b, c);
      RemoveCharCons(x, t, c);
      RemoveCharConcat(t, b, c);
    } else {
      assert a + b == b;
    }
  }

  // ---- the IN-list `"(" + ",".join(["'" + id + "'" for id in ids]) + ")"` ----

  function Quote(id: string): string {
    "'" + id + "'"
  }

  function JoinQuoted(ids: seq<string>): string
    decreases |ids|
  {
    if |ids| == 0 then ""
    else if |ids| == 1 then Quote(ids[0])
    else Quote(ids[0]) + ("," + JoinQuoted(ids[1..]))
  }

  function InList(ids: seq<string>): string {
    "(" + JoinQuoted(ids) + ")"
  }

  predicate QuoteFree(id: string) {
    forall i :: 0 <= i < |id| ==> id[i] != '\''
  }

  /** Index of the first quote character in t, or |t| when there is none. */
  function IndexOfQuote(t: string): (k: nat)
    ensures k <= |t|
    ensures forall i :: 0 <= i < k ==> t[i] != '\''
    ensures k < |t| ==> t[k] == '\''
  {
    if t == "" then 0
    else if t[0] == '\'' then 0
    else 1 + IndexOfQuote(t[1..])
  }

  /** How SQL reads a comma-separated run of quoted literals (no escapes). */
  function ParseQuotedItems(t: string): Option<seq<string>>
    decreases |t|
  {
    if |t| == 0 || t[0] != '\'' then None
    else
      var body := t[1..];
      var k := IndexOfQuote(body);
      if k == |body| then None
      else
        var rest := body[k + 1..];
        if rest == "" then Some([body[..k]])
        else if rest[0] != ',' then None
        else match ParseQuotedItems(rest[1..])
          case None => None
          case Some(more) => Some([body[..k]] + more)
  }

  /** How SQL reads a parenthesised list of quoted literals. */
  function ParseInList(s: string): Option<seq<string>> {
    if |s| < 2 || s[0] != '(' || s[|s| - 1] != ')' then None
    else if |s| == 2 then Some([])
    else ParseQuotedItems(s[1..|s| - 1])
  }

  /** Reading one quoted literal of a quote-free id, then the rest of the list. */
  lemma ParseOneItem(id: string, tail: string)
    requires QuoteFree(id)
    ensures ParseQuotedItems(Quote(id) + tail) ==
      if tail == "" then Some([id])
      else if tail[0] != ',' then None
      else match ParseQuotedItems(tail[1..])
        case None => None
        case Some(more) => Some([id] + more)
  {
    QuotedItemSplit(id, tail);
  }

  /** Where the first literal of `'id'tail` ends, and what follows it. */
  lemma QuotedItemSplit(id: string, tail: string)
    requires QuoteFree(id)
    ensures var t := Quote(id) + tail;
      && |t| > 0 && t[0] == '\''
      && IndexOfQuote(t[1..]) == |id| < |t[1..]|
      && t[1..][..|id|] == id
      && t[1..][|id| + 1..] == tail
  {
    var t := Quote(id) + tail;
    assert t[0] == '\'';
    var body := t[1..];
    var k := |id|;
    assert body[k] == '\'';
    forall i | 0 <= i < k ensures body[i] == id[i] {
      assert body[i] == t[i + 1];
    }
    assert IndexOfQuote(body) == k;
    assert body[..k] == id;
    assert body[k + 1..] == tail;
  }

  lemma {:induction false} ParseJoinQuoted(ids: seq<string>)
    requires |ids| >= 1
    requires forall i :: 0 <= i < |ids| ==> QuoteFree(ids[i])
    ensures ParseQuotedItems(JoinQuoted(ids)) == Some(ids)
    decreases |ids|
  {
    if |ids| == 1 {
      ParseOneItem(ids[0], "");
      assert JoinQuoted(ids) == Quote(ids[0]) + "";
      assert [ids[0]] == ids;
    } else {
      var rest := ids[1..];
      assert forall i :: 0 <= i < |rest| ==> rest[i] == ids[i + 1];
      ParseJoinQuoted(rest);
      ParseCons(ids[0], rest);
      assert [ids[0]] + rest == ids;
    }
  }

  /** A quoted quote-free id in front of a list that reads back adds that id. */
  lemma ParseCons(id: string, rest: seq<string>)
    requires QuoteFree(id) && |rest| >= 1
    requires ParseQuotedItems(JoinQuoted(rest)) == Some(rest)
    ensures ParseQuotedItems(JoinQuoted([id] + rest)) == Some([id] + rest)
  {
    var ids := [id] + rest;
    assert ids[0] == id && ids[1..] == rest;
    var tail := "," + JoinQuoted(rest);
    assert JoinQuoted(ids) == Quote(id) + tail;
    ParseOneItem(id, tail);
    assert tail[0] == ',' && tail[1..] == JoinQuoted(rest);
  }

  /** The IN-list denotes exactly the id list it was built from, as long as no id
      holds a quote character. */
  lemma InListRoundTrip(ids: seq<string>)
    requires forall i :: 0 <= i < |ids| ==> QuoteFree(ids[i])
    ensures ParseInList(InList(ids)) == Some(ids)
  {
    InListShape(ids);
    if |ids| > 0 {
      ParseJoinQuoted(ids);
      assert |Quote(ids[0])| == |ids[0]| + 2;
    }
  }

  /** The IN-list is the joined literals between parentheses. */
  lemma InListShape(ids: seq<string>)
    ensures var s := InList(ids);
      && |s| >= 2 && s[0] == '(' && s[|s| - 1] == ')'
      && s[1..|s| - 1] == JoinQuoted(ids)
      && (|s| == 2 <==> JoinQuoted(ids) == "")
  {
  }

  /** A quote inside an id is not escaped: one id "a','b" reads back as two ids. */
  lemma QuoteInIdSplitsTheList()
    ensures InList(["a','b"]) == InList(["a", "b"])
    ensures ParseInList(InList(["a','b"])) != Some(["a','b"])
  {
    assert InList(["a','b"]) == "('a','b')" by {
      assert JoinQuoted(["a','b"]) == Quote("a','b");
    }
    assert InList(["a", "b"]) == "('a','b')" by {
      assert JoinQuoted(["b"]) == Quote("b");
      assert JoinQuoted(["a", "b"]) == Quote("a") + ("," + JoinQuoted(["b"]));
    }
    assert QuoteFree("a") && QuoteFree("b");
    InListRoundTrip(["a", "b"]);
  }
}

/**
 * The shape of the DDL column fragments the column model renders:
 * `<name> <type> <clauses>`, where each clause is one of the fixed keywords
 * or a trailing `DEFAULT '<value>'`. A decoder reads a fragment back, so
 * statements about which clauses a fragment holds, and in what order, are
 * statements about the text itself.
 */
module Fragments {
  import opened Wrappers

  datatype Clause = PrimaryKey | AutoIncrement | Unique | NotNull | Default(value: string)

  /** Position of a clause in the fixed order the renderers emit them. */
  function Rank(c: Clause): nat
  {
    match c
    case PrimaryKey => 0
    case AutoIncrement => 1
    case Unique => 2
    case NotNull => 3
    case Default(_) => 4
  }

  function ClauseText(c: Clause): string
  {
    match c
    case PrimaryKey => "PRIMARY KEY "
    case AutoIncrement => "AUTOINCREMENT "
    case Unique => "UNIQUE "
    case NotNull => "NOT NULL "
    case Default(v) => "DEFAULT '" + v + "'"
  }

  function ClausesText(cs: seq<Clause>): string
  {
    if cs == [] then "" else ClauseText(cs[0]) + ClausesText(cs[1..])
  }

  /** Clauses strictly increase in rank: each at most once, in the fixed order. */
  predicate InCanonicalOrder(cs: seq<Clause>)
  {
    forall i, j :: 0 <= i < j < |cs| ==> Rank(cs[i]) < Rank(cs[j])
  }

  function Last(cs: seq<Clause>): Clause
    requires cs != []
  {
    cs[|cs| - 1]
  }

  /** A DEFAULT clause, if any, is the last one (its value runs to the end of the text). */
  predicate DefaultLast(cs: seq<Clause>)
  {
    forall i :: 0 <= i < |cs| - 1 ==> !cs[i].Default?
  }

  predicate StartsWith(s: string, p: string)
  {
    |p| <= |s| && s[..|p|] == p
  }

  function Cons(c: Clause, rest: Option<seq<Clause>>): Option<seq<Clause>>
  {
    match rest
    case None => None
    case Some(cs) => Some([c] + cs)
  }

  /** Reads a clause list back from its text; None when the text is not one. */
  function DecodeClauses(s: string): Option<seq<Clause>>
    decreases |s|
  {
    if s == [] then Some([])
    else if StartsWith(s, "PRIMARY KEY ") then Cons(PrimaryKey, DecodeClauses(s[12..]))
    else if StartsWith(s, "AUTOINCREMENT ") then Cons(AutoIncrement, DecodeClauses(s[14..]))
    else if StartsWith(s, "UNIQUE ") then Cons(Unique, DecodeClauses(s[7..]))
    else if StartsWith(s, "NOT NULL ") then Cons(NotNull, DecodeClauses(s[9..]))
    else if StartsWith(s, "DEFAULT '") && |s| >= 10 && s[|s| - 1] == '\'' then Some([Default(s[9..|s| - 1])])
    else None
  }

  /** Index of the first space in s, or |s| when there is none. */
  function FirstSpace(s: string): (r: nat)
    ensures r <= |s|
    ensures r < |s| ==> s[r] == ' '
    ensures forall k :: 0 <= k < r ==> s[k] != ' '
  {
    if s == [] then 0
    else if s[0] == ' ' then 0
    else 1 + FirstSpace(s[1..])
  }

  datatype Fragment = Fragment(name: string, typeName: string, clauses: seq<Clause>)

  function FragmentText(f: Fragment): string
  {
    f.name + " " + f.typeName + " " + ClausesText(f.clauses)
  }

  /** Splits `<name> <type> <clauses>` at its first two spaces and decodes the clauses. */
  function DecodeFragment(s: string): Option<Fragment>
  {
    var i := FirstSpace(s);
    if i == |s| then None
    else
      var rest := s[i + 1..];
      var j := FirstSpace(rest);
      if j == |rest| then None
      else
        match DecodeClauses(rest[j + 1..])
        case None => None
        case Some(cs) => Some(Fragment(s[..i], rest[..j], cs))
  }

  lemma ClausesTextSnoc(cs: seq<Clause>, c: Clause)
    ensures ClausesText(cs + [c]) == ClausesText(cs) + ClauseText(c)
  {
    if cs != [] {
      assert (cs + [c])[1..] == cs[1..] + [c];
      ClausesTextSnoc(cs[1..], c);
    }
  }

  /** Appending one clause's text to a rendered prefix renders the longer clause list. */
  lemma AppendClause(head: string, cs: seq<Clause>, c: Clause)
    ensures head + ClausesText(cs) + ClauseText(c) == head + ClausesText(cs + [c])
  {
    var a, b := ClausesText(cs), ClauseText(c);
    ClausesTextSnoc(cs, c);
    assert head + a + b == head + (a + b);
  }

  /** Rendering distributes over concatenation of clause lists. */
  lemma {:induction false} ClausesTextConcat(a: seq<Clause>, b: seq<Clause>)
    ensures ClausesText(a + b) == ClausesText(a) + ClausesText(b)
  {
    if a != [] {
      assert (a + b)[1..] == a[1..] + b;
      ClausesTextConcat(a[1..], b);
    } else {
      assert a + b == b;
    }
  }

  /** Appending the text of a second clause list to a rendered prefix renders the joined list. */
  lemma AppendClauses(head: string, a: seq<Clause>, b: seq<Clause>)
    ensures head + ClausesText(a) + ClausesText(b) == head + ClausesText(a + b)
  {
    ClausesTextConcat(a, b);
    assert head + ClausesText(a) + ClausesText(b) == head + (ClausesText(a) + ClausesText(b));
  }

  /** Canonical order puts a DEFAULT clause last. */
  lemma CanonicalOrderPutsDefaultLast(cs: seq<Clause>)
    requires InCanonicalOrder(cs)
    ensures DefaultLast(cs)
  {
    forall i | 0 <= i < |cs| - 1
      ensures !cs[i].Default?
    {
      assert Rank(cs[i]) < Rank(cs[i + 1]);
    }
  }

  lemma FirstCharDiffers(s: string, p: string)
    requires s != [] && p != [] && s[0] != p[0]
    ensures !StartsWith(s, p)
  {
    if |p| <= |s| {
      assert s[..|p|][0] == s[0];
    }
  }

  lemma StartsWithPrefix(k: string, rest: string)
    ensures StartsWith(k + rest, k) && (k + rest)[|k|..] == rest
  {
    assert (k + rest)[..|k|] == k;
  }

  /** A keyword clause in front of any text is decoded as that clause, then the text. */
  lemma DecodeAfterKeyword(c: Clause, rest: string)
    requires !c.Default?
    ensures DecodeClauses(ClauseText(c) + rest) == Cons(c, DecodeClauses(rest))
  {
    var k := ClauseText(c);
    var s := k + rest;
    StartsWithPrefix(k, rest);
    match c
    case PrimaryKey =>
    case AutoIncrement =>
      FirstCharDiffers(s, "PRIMARY KEY ");
    case Unique =>
      FirstCharDiffers(s, "PRIMARY KEY ");
      FirstCharDiffers(s, "AUTOINCREMENT ");
    case NotNull =>
      FirstCharDiffers(s, "PRIMARY KEY ");
      FirstCharDiffers(s, "AUTOINCREMENT ");
      FirstCharDiffers(s, "UNIQUE ");
  }

  lemma DecodeDefault(v: string)
    ensures DecodeClauses(ClauseText(Default(v))) == Some([Default(v)])
  {
    var s := ClauseText(Default(v));
    StartsWithPrefix("DEFAULT '", v + "'");
    assert s == "DEFAULT '" + (v + "'");
    FirstCharDiffers(s, "PRIMARY KEY ");
    FirstCharDiffers(s, "AUTOINCREMENT ");
    FirstCharDiffers(s, "UNIQUE ");
    FirstCharDiffers(s, "NOT NULL ");
    assert s[9..|s| - 1] == v;
  }

  /** Decoding the text of a clause list whose DEFAULT (if any) is last gives the list back. */
  lemma {:induction false} ClausesRoundTrip(cs: seq<Clause>)
    requires DefaultLast(cs)
    ensures DecodeClauses(ClausesText(cs)) == Some(cs)
  {
    if cs != [] {
      var c := cs[0];
      assert ClausesText(cs) == ClauseText(c) + ClausesText(cs[1..]);
      if c.Default? {
        assert cs == [c];
        assert ClausesText(cs[1..]) == "";
        assert ClausesText(cs) == ClauseText(c);
        DecodeDefault(c.value);
      } else {
        assert DefaultLast(cs[1..]);
        ClausesRoundTrip(cs[1..]);
        DecodeAfterKeyword(c, ClausesText(cs[1..]));
        assert [c] + cs[1..] == cs;
      }
    }
  }

  lemma FirstSpaceAfter(a: string, b: string)
    requires ' ' !in a
    ensures FirstSpace(a + " " + b) == |a|
  {
    if a != [] {
      assert (a + " " + b)[1..] == a[1..] + " " + b;
      FirstSpaceAfter(a[1..], b);
    }
  }

  /**
   * A fragment whose name and type hold no space, and whose DEFAULT clause
   * (if any) is last, is read back exactly from its text.
   */
  lemma FragmentRoundTrip(f: Fragment)
    requires ' ' !in f.name && ' ' !in f.typeName
    requires DefaultLast(f.clauses)
    ensures DecodeFragment(FragmentText(f)) == Some(f)
  {
    var s := FragmentText(f);
    var tail := f.typeName + " " + ClausesText(f.clauses);
    assert s == f.name + " " + tail;
    FirstSpaceAfter(f.name, tail);
    var i := |f.name|;
    assert s[..i] == f.name;
    assert s[i + 1..] == tail;
    FirstSpaceAfter(f.typeName, ClausesText(f.clauses));
    var j := |f.typeName|;
    assert tail[..j] == f.typeName;
    assert tail[j + 1..] == ClausesText(f.clauses);
    ClausesRoundTrip(f.clauses);
  }
}

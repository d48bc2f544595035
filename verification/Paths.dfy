/** Patterns and paths: strings split at slashes. */
module Paths {

  /** `strings.Split(s, "/")`. */
  function Split(s: string): (r: seq<string>)
    ensures r != []
  {
    if s == "" then [""]
    else
      var r := Split(s[1..]);
      if s[0] == '/' then [""] + r else [[s[0]] + r[0]] + r[1..]
  }

  /** `strings.Join(ss, "/")`. */
  function Join(ss: seq<string>): string {
    if ss == [] then ""
    else if |ss| == 1 then ss[0]
    else ss[0] + "/" + Join(ss[1..])
  }

  function NonEmpty(ss: seq<string>): (r: seq<string>)
    ensures forall i :: 0 <= i < |r| ==> r[i] != ""
  {
    if ss == [] then []
    else if ss[0] == "" then NonEmpty(ss[1..])
    else [ss[0]] + NonEmpty(ss[1..])
  }

  predicate Starred(part: string) { part != "" && part[0] == '*' }

  /** Everything up to and including the first part that starts with a star. */
  function UpToStar(ss: seq<string>): seq<string> {
    if ss == [] then []
    else if Starred(ss[0]) then [ss[0]]
    else [ss[0]] + UpToStar(ss[1..])
  }

  function Segments(s: string): seq<string> { NonEmpty(Split(s)) }

  /** What `parsePattern` returns. */
  function Parts(s: string): (r: seq<string>)
    ensures WellFormed(r)
  {
    UpToStarForm(Segments(s));
    UpToStar(Segments(s))
  }

  /** No part is empty, and only the last may start with a star. */
  ghost predicate WellFormed(ps: seq<string>) {
    forall i :: 0 <= i < |ps| ==> ps[i] != "" && (i < |ps| - 1 ==> !Starred(ps[i]))
  }

  lemma {:induction false} UpToStarForm(ss: seq<string>)
    requires forall i :: 0 <= i < |ss| ==> ss[i] != ""
    ensures WellFormed(UpToStar(ss))
  {
    if ss != [] && !Starred(ss[0]) {
      UpToStarForm(ss[1..]);
      var r := UpToStar(ss);
      assert forall i :: 0 < i < |r| ==> r[i] == UpToStar(ss[1..])[i - 1];
    }
  }

  /** A path keeps all its segments exactly when only the last of them may start with a star. */
  lemma {:induction false} KeepsAllIff(ss: seq<string>)
    requires forall i :: 0 <= i < |ss| ==> ss[i] != ""
    ensures UpToStar(ss) == ss <==> WellFormed(ss)
  {
    if ss != [] {
      var t := ss[1..];
      assert forall i :: 0 <= i < |t| ==> t[i] == ss[i + 1];
      KeepsAllIff(t);
      if Starred(ss[0]) {
        if |ss| > 1 { assert |UpToStar(ss)| == 1; }
      } else {
        assert ss == [ss[0]] + t;
        if WellFormed(ss) {
          assert WellFormed(t);
        }
        if UpToStar(ss) == ss {
          assert UpToStar(ss)[1..] == UpToStar(t);
        }
      }
    }
  }

  /** What is kept is a beginning of the list, and ends with a star if anything is left out. */
  lemma {:induction false} UpToStarStops(ss: seq<string>)
    ensures UpToStar(ss) <= ss
    ensures UpToStar(ss) != ss ==> UpToStar(ss) != [] && Starred(UpToStar(ss)[|UpToStar(ss)| - 1])
  {
    if ss != [] && !Starred(ss[0]) {
      UpToStarStops(ss[1..]);
      assert ss == [ss[0]] + ss[1..];
      var r := UpToStar(ss[1..]);
      if r != [] {
        assert ([ss[0]] + r)[|r|] == r[|r| - 1];
      }
    }
  }

  lemma {:induction false} NonEmptyConcat(a: seq<string>, b: seq<string>)
    ensures NonEmpty(a + b) == NonEmpty(a) + NonEmpty(b)
  {
    if a == [] {
      assert a + b == b;
    } else {
      assert (a + b)[1..] == a[1..] + b;
      NonEmptyConcat(a[1..], b);
    }
  }

  lemma {:induction false} SplitConcat(a: string, b: string)
    ensures Split(a + ("/" + b)) == Split(a) + Split(b)
  {
    hide Split;
    var s := a + ("/" + b);
    SplitStep(s);
    if a == "" {
      assert s[1..] == b;
      SplitNone();
    } else {
      SplitConcat(a[1..], b);
      SplitStep(a);
      assert s[0] == a[0] && s[1..] == a[1..] + ("/" + b);
      SplitHead(a[0], Split(a[1..]), Split(b));
    }
  }

  lemma SplitNone()
    ensures Split("") == [""]
  {
  }

  lemma SplitHead(c: char, r: seq<string>, more: seq<string>)
    requires r != []
    ensures [[c] + (r + more)[0]] + (r + more)[1..] == [[c] + r[0]] + r[1..] + more
    ensures [""] + (r + more) == [""] + r + more
  {
  }

  lemma SplitStep(s: string)
    requires s != ""
    ensures var r := Split(s[1..]); Split(s) == if s[0] == '/' then [""] + r else [[s[0]] + r[0]] + r[1..]
  {
  }

  /** The segments of a path are those before and those after any of its slashes; without a slash it is one
      segment, or none if it is empty. */
  lemma SegmentsConcat(a: string, b: string)
    ensures Segments(a + ("/" + b)) == Segments(a) + Segments(b)
    ensures '/' !in a ==> Segments(a) == if a == "" then [] else [a]
  {
    SplitConcat(a, b);
    NonEmptyConcat(Split(a), Split(b));
    if '/' !in a {
      SplitPlain(a);
      assert [a][1..] == [];
    }
  }

  method ParsePattern(pattern: string) returns (parts: seq<string>)
    ensures parts == Parts(pattern)
  {
    var vs := Split(pattern);
    parts := [];
    for i := 0 to |vs|
      invariant UpToStar(NonEmpty(vs)) == parts + UpToStar(NonEmpty(vs[i..]))
    {
      assert vs[i..][1..] == vs[i + 1..];
      if vs[i] != "" {
        ghost var rest := NonEmpty(vs[i + 1..]);
        assert NonEmpty(vs[i..]) == [vs[i]] + rest && ([vs[i]] + rest)[1..] == rest;
        parts := parts + [vs[i]];
        if vs[i][0] == '*' {
          break;
        }
      }
    }
  }

  /** Joining the tail of a list first makes no difference. */
  lemma {:induction false} JoinTail(a: seq<string>, b: seq<string>)
    requires b != []
    ensures Join(a + [Join(b)]) == Join(a + b)
  {
    if a == [] {
      assert a + [Join(b)] == [Join(b)] && a + b == b;
    } else {
      assert (a + [Join(b)])[1..] == a[1..] + [Join(b)];
      assert (a + b)[1..] == a[1..] + b;
      JoinTail(a[1..], b);
    }
  }

  /** Splitting undoes joining. */
  lemma {:induction false} SplitJoin(ss: seq<string>)
    requires ss != [] && forall i :: 0 <= i < |ss| ==> '/' !in ss[i]
    ensures Split(Join(ss)) == ss
  {
    if |ss| == 1 {
      SplitPlain(ss[0]);
    } else {
      SplitJoin(ss[1..]);
      SplitFirst(ss[0], Join(ss[1..]));
      assert ss[0] + "/" + Join(ss[1..]) == ss[0] + ("/" + Join(ss[1..]));
    }
  }

  lemma {:induction false} SplitPlain(s: string)
    requires '/' !in s
    ensures Split(s) == [s]
  {
    if s != "" {
      assert s[0] in s;
      SplitPlain(s[1..]);
      assert [s[0]] + s[1..] == s;
    }
  }

  lemma {:induction false} SplitFirst(a: string, rest: string)
    requires '/' !in a
    ensures Split(a + ("/" + rest)) == [a] + Split(rest)
  {
    var s := a + ("/" + rest);
    if a == "" {
      assert s == "/" + rest && s[1..] == rest;
    } else {
      assert a[0] in a;
      assert s[1..] == a[1..] + ("/" + rest);
      SplitFirst(a[1..], rest);
      assert [a[0]] + a[1..] == a;
    }
  }

  /** Every well-formed list of parts without slashes is what some string parses to. */
  lemma PartsOfJoin(ss: seq<string>)
    requires WellFormed(ss) && forall i :: 0 <= i < |ss| ==> '/' !in ss[i]
    ensures Parts(Join(ss)) == ss
  {
    if ss == [] {
      assert Split("") == [""];
      assert NonEmpty([""]) == [];
    } else {
      SplitJoin(ss);
      NonEmptySame(ss);
      KeepsAllIff(ss);
    }
  }

  lemma {:induction false} NonEmptySame(ss: seq<string>)
    requires forall i :: 0 <= i < |ss| ==> ss[i] != ""
    ensures NonEmpty(ss) == ss
  {
    if ss != [] { NonEmptySame(ss[1..]); }
  }
}

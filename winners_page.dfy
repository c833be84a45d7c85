/**
  The winners table: the downloaded records are normalised, filtered by a
  case-insensitive search on the email, sorted by score in the chosen order
  and shown with a rank label, a masked email and two summary figures (the
  first row's score and the rounded average).
*/
module WinnersPage {
  import opened Wrappers
  import opened JsMath

  datatype Winner = Winner(email: string, score: int)

  // ---------------------------------------------------------------------
  // Email masking
  // ---------------------------------------------------------------------

  /** `censurarEmail`: short addresses are shown as they are, longer ones as the first three and last three characters around "...". */
  function CensorEmail(email: string): (r: string)
    ensures |email| <= 6 ==> r == email
    ensures |email| > 6 ==> |r| == 9
    ensures |email| > 6 ==> r[..3] == email[..3] && r[3..6] == "..." && r[6..] == email[|email| - 3..]
  {
    if |email| <= 6 then email
    else email[..3] + "..." + email[|email| - 3..]
  }

  /** Masking is idempotent: a masked email is masked into itself again. */
  lemma CensorTwice(email: string)
    ensures CensorEmail(CensorEmail(email)) == CensorEmail(email)
  {
    if |email| > 6 {
      var once := CensorEmail(email);
      assert once[..3] + "..." + once[6..] == once by {
        assert once == once[..3] + once[3..6] + once[6..];
      }
    }
  }

  // ---------------------------------------------------------------------
  // Normalisation of the downloaded records
  // ---------------------------------------------------------------------

  /** A JSON score: a number or anything else. */
  datatype RawScore = Num(n: int) | NotNum

  /** A downloaded record as parsed from JSON; the email may be missing. */
  datatype RawWinner = RawWinner(email: Option<string>, score: RawScore)

  /** One row of `data.map(...)`: a missing email becomes "", a score that is not a number becomes 0. */
  function NormalizeOne(raw: RawWinner): (w: Winner)
    ensures raw.email.None? ==> w.email == ""
    ensures raw.email.Some? ==> w.email == raw.email.value
    ensures raw.score.NotNum? ==> w.score == 0
    ensures raw.score.Num? ==> w.score == raw.score.n
  {
    Winner(raw.email.GetOr(""), match raw.score case Num(n) => n case NotNum => 0)
  }

  /** The normalised list: same length, same order, each row normalised on its own. */
  function Normalize(data: seq<RawWinner>): (ws: seq<Winner>)
    ensures |ws| == |data|
    ensures forall i :: 0 <= i < |data| ==> ws[i] == NormalizeOne(data[i])
  {
    if data == [] then [] else [NormalizeOne(data[0])] + Normalize(data[1..])
  }

  /** Normalisation distributes over concatenation, so it keeps every record where it was. */
  lemma {:induction false} NormalizeAppend(a: seq<RawWinner>, b: seq<RawWinner>)
    ensures Normalize(a + b) == Normalize(a) + Normalize(b)
  {
    if a == [] {
      assert a + b == b;
    } else {
      assert (a + b)[1..] == a[1..] + b;
      NormalizeAppend(a[1..], b);
    }
  }

  // ---------------------------------------------------------------------
  // Case-insensitive search
  // ---------------------------------------------------------------------

  /** `toLowerCase` on the ASCII letters; every other character is kept. */
  function LowerChar(c: char): (l: char)
    ensures 'A' <= c <= 'Z' ==> l as int == c as int + 32
    ensures !('A' <= c <= 'Z') ==> l == c
    ensures !('A' <= l <= 'Z')
  {
    if 'A' <= c <= 'Z' then (c as int + 32) as char else c
  }

  function ToLower(s: string): (r: string)
    ensures |r| == |s|
    ensures forall i :: 0 <= i < |s| ==> r[i] == LowerChar(s[i])
  {
    if s == [] then [] else [LowerChar(s[0])] + ToLower(s[1..])
  }

  /** Lower-casing twice is lower-casing once. */
  lemma ToLowerIdempotent(s: string)
    ensures ToLower(ToLower(s)) == ToLower(s)
  {
  }

  /** `includes`: t occurs in s as a contiguous piece, searched from the front. */
  function Contains(s: string, t: string): (b: bool)
    ensures t == [] ==> b
    ensures b ==> |t| <= |s|
    decreases |s|
  {
    if |t| <= |s| && s[..|t|] == t then true
    else if s == [] then false
    else Contains(s[1..], t)
  }

  /** t starts at position i of s. */
  predicate OccursAt(s: string, t: string, i: int)
  {
    0 <= i <= |s| - |t| && s[i..i + |t|] == t
  }

  /** The search is exactly "there is a position where t starts" — both directions. */
  lemma {:induction false} ContainsIff(s: string, t: string)
    ensures Contains(s, t) <==> exists i :: OccursAt(s, t, i)
    decreases |s|
  {
    if |t| <= |s| && s[..|t|] == t {
      assert OccursAt(s, t, 0);
    } else if s == [] {
      forall i | OccursAt(s, t, i)
        ensures false
      {
      }
    } else {
      ContainsIff(s[1..], t);
      if Contains(s, t) {
        var i :| OccursAt(s[1..], t, i);
        assert s[i + 1..i + 1 + |t|] == s[1..][i..i + |t|];
        assert OccursAt(s, t, i + 1);
      } else {
        forall i | OccursAt(s, t, i)
          ensures false
        {
          if i > 0 {
            assert s[i..i + |t|] == s[1..][i - 1..i - 1 + |t|];
            assert OccursAt(s[1..], t, i - 1);
          }
        }
      }
    }
  }

  /** The empty search term is found in every email. */
  lemma ContainsEmpty(s: string)
    ensures Contains(s, "")
  {
    assert s[..0] == "";
  }

  /** The filter's test for one row. */
  function Matches(w: Winner, term: string): (b: bool)
    ensures b <==> exists i :: OccursAt(ToLower(w.email), ToLower(term), i)
    ensures term == "" ==> b
  {
    ContainsIff(ToLower(w.email), ToLower(term));
    Contains(ToLower(w.email), ToLower(term))
  }

  /**
    `winners.filter(...)`: the rows that match, in their original order.
    Every matching row is kept as often as it occurs, every other one dropped.
  */
  function Filter(ws: seq<Winner>, term: string): (r: seq<Winner>)
    ensures |r| <= |ws|
    ensures forall w :: w in r <==> w in ws && Matches(w, term)
    ensures forall w :: multiset(r)[w] == if Matches(w, term) then multiset(ws)[w] else 0
  {
    if ws == [] then []
    else
      assert ws == [ws[0]] + ws[1..];
      if Matches(ws[0], term) then [ws[0]] + Filter(ws[1..], term)
      else Filter(ws[1..], term)
  }

  /** An empty search keeps the whole list, in order. */
  lemma {:induction false} FilterEmptyTerm(ws: seq<Winner>)
    ensures Filter(ws, "") == ws
  {
    if ws != [] {
      ContainsEmpty(ToLower(ws[0].email));
      FilterEmptyTerm(ws[1..]);
      assert [ws[0]] + ws[1..] == ws;
    }
  }

  /** Filtering keeps the order: what passes is the list with the failing rows taken out, so filtering again changes nothing. */
  lemma {:induction false} FilterIdempotent(ws: seq<Winner>, term: string)
    ensures Filter(Filter(ws, term), term) == Filter(ws, term)
  {
    if ws != [] {
      FilterIdempotent(ws[1..], term);
      if Matches(ws[0], term) {
        assert ([ws[0]] + Filter(ws[1..], term))[1..] == Filter(ws[1..], term);
      }
    }
  }

  // ---------------------------------------------------------------------
  // Sorting by score
  // ---------------------------------------------------------------------

  datatype SortOrder = Asc | Desc

  /** The sort button: desc becomes asc and asc becomes desc. */
  function Toggle(o: SortOrder): (r: SortOrder)
    ensures r != o
  {
    match o
    case Desc => Asc
    case Asc => Desc
  }

  lemma ToggleTwice(o: SortOrder)
    ensures Toggle(Toggle(o)) == o
  {
  }

  /** a may come before b: the comparator `b.score - a.score` (desc) or `a.score - b.score` (asc) is not positive. */
  predicate InOrder(a: Winner, b: Winner, o: SortOrder)
  {
    match o
    case Desc => a.score >= b.score
    case Asc => a.score <= b.score
  }

  predicate Sorted(ws: seq<Winner>, o: SortOrder)
  {
    forall i, j :: 0 <= i < j < |ws| ==> InOrder(ws[i], ws[j], o)
  }

  /** Puts w in front of the first row it may precede, so that rows with equal scores keep their order. */
  function Insert(w: Winner, ws: seq<Winner>, o: SortOrder): (r: seq<Winner>)
    ensures |r| == |ws| + 1
  {
    if ws == [] then [w]
    else if InOrder(w, ws[0], o) then [w] + ws
    else [ws[0]] + Insert(w, ws[1..], o)
  }

  /** Insertion adds exactly w. */
  lemma {:induction false} InsertPermutes(w: Winner, ws: seq<Winner>, o: SortOrder)
    ensures multiset(Insert(w, ws, o)) == multiset(ws) + multiset{w}
  {
    if ws == [] {
    } else if InOrder(w, ws[0], o) {
      assert Insert(w, ws, o) == [w] + ws;
    } else {
      var rest := Insert(w, ws[1..], o);
      InsertPermutes(w, ws[1..], o);
      assert Insert(w, ws, o) == [ws[0]] + rest;
      assert ws == [ws[0]] + ws[1..];
      assert multiset(ws) == multiset{ws[0]} + multiset(ws[1..]);
    }
  }

  /** x may precede every row of ws. */
  predicate Precedes(x: Winner, ws: seq<Winner>, o: SortOrder)
  {
    forall k :: 0 <= k < |ws| ==> InOrder(x, ws[k], o)
  }

  /** The comparator is total: when w may not go first, the other row may precede it. */
  lemma InOrderTotal(a: Winner, b: Winner, o: SortOrder)
    ensures InOrder(a, b, o) || InOrder(b, a, o)
  {
  }

  /** A row that may precede w and every row of ws may precede every row after inserting w. */
  lemma {:induction false} InsertKeepsPrecedes(x: Winner, w: Winner, ws: seq<Winner>, o: SortOrder)
    requires InOrder(x, w, o) && Precedes(x, ws, o)
    ensures Precedes(x, Insert(w, ws, o), o)
  {
    if ws != [] && !InOrder(w, ws[0], o) {
      InsertKeepsPrecedes(x, w, ws[1..], o);
    }
  }

  /** Putting in front of a sorted list a row that may precede all of it keeps it sorted. */
  lemma ConsSorted(x: Winner, ws: seq<Winner>, o: SortOrder)
    requires Precedes(x, ws, o) && Sorted(ws, o)
    ensures Sorted([x] + ws, o)
  {
    var r := [x] + ws;
    forall i, j | 0 <= i < j < |r|
      ensures InOrder(r[i], r[j], o)
    {
      if i == 0 {
        assert r[j] == ws[j - 1];
      } else {
        assert r[i] == ws[i - 1] && r[j] == ws[j - 1];
      }
    }
  }

  /** Insertion into a sorted list gives a sorted list. */
  lemma {:induction false} InsertSorted(w: Winner, ws: seq<Winner>, o: SortOrder)
    requires Sorted(ws, o)
    ensures Sorted(Insert(w, ws, o), o)
  {
    if ws == [] {
    } else if InOrder(w, ws[0], o) {
      assert Precedes(w, ws, o) by {
        forall k | 0 <= k < |ws|
          ensures InOrder(w, ws[k], o)
        {
          if k > 0 {
            assert InOrder(ws[0], ws[k], o);
          }
        }
      }
      ConsSorted(w, ws, o);
    } else {
      InsertSorted(w, ws[1..], o);
      InOrderTotal(w, ws[0], o);
      InsertKeepsPrecedes(ws[0], w, ws[1..], o);
      ConsSorted(ws[0], Insert(w, ws[1..], o), o);
    }
  }

  /** `filtered.sort(...)` as a sorted copy: a permutation of its input, sorted in the chosen order. */
  function Sort(ws: seq<Winner>, o: SortOrder): (r: seq<Winner>)
    ensures multiset(r) == multiset(ws)
    ensures |r| == |ws|
    ensures Sorted(r, o)
  {
    if ws == [] then []
    else
      var rest := Sort(ws[1..], o);
      InsertPermutes(ws[0], rest, o);
      InsertSorted(ws[0], rest, o);
      assert ws == [ws[0]] + ws[1..];
      Insert(ws[0], rest, o)
  }

  /** The table shown for a search term and an order (the filter-and-sort effect). */
  function Visible(winners: seq<Winner>, term: string, o: SortOrder): (r: seq<Winner>)
    ensures Sorted(r, o)
    ensures multiset(r) == multiset(Filter(winners, term))
    ensures forall w :: w in r <==> w in winners && Matches(w, term)
  {
    var filtered := Filter(winners, term);
    var r := Sort(filtered, o);
    assert forall w :: w in r <==> w in multiset(r);
    assert forall w :: w in filtered <==> w in multiset(filtered);
    r
  }

  /** Only a table whose scores are all equal is sorted both ways, so the order button changes every other table. */
  lemma SortedBothWaysIsConstant(ws: seq<Winner>)
    requires Sorted(ws, Asc) && Sorted(ws, Desc)
    ensures forall i, j :: 0 <= i < |ws| && 0 <= j < |ws| ==> ws[i].score == ws[j].score
  {
    forall i, j | 0 <= i < |ws| && 0 <= j < |ws|
      ensures ws[i].score == ws[j].score
    {
      if i < j {
        assert InOrder(ws[i], ws[j], Asc) && InOrder(ws[i], ws[j], Desc);
      } else if j < i {
        assert InOrder(ws[j], ws[i], Asc) && InOrder(ws[j], ws[i], Desc);
      }
    }
  }

  // ---------------------------------------------------------------------
  // Rank labels
  // ---------------------------------------------------------------------

  /** `getRankIcon`: three medals, then "#" and the 1-based position. */
  datatype RankIcon = GoldMedal | SilverMedal | BronzeMedal | Numbered(n: nat)

  /** `getRankColor`'s Tailwind classes. */
  datatype RankColor = Yellow500 | Gray400 | Orange600 | Gray300

  function RankIconOf(index: nat): (r: RankIcon)
    ensures index == 0 <==> r == GoldMedal
    ensures index == 1 <==> r == SilverMedal
    ensures index == 2 <==> r == BronzeMedal
    ensures index >= 3 <==> r.Numbered?
    ensures r.Numbered? ==> r.n == index + 1
  {
    if index == 0 then GoldMedal
    else if index == 1 then SilverMedal
    else if index == 2 then BronzeMedal
    else Numbered(index + 1)
  }

  function RankColorOf(index: nat): (c: RankColor)
    ensures index == 0 <==> c == Yellow500
    ensures index == 1 <==> c == Gray400
    ensures index == 2 <==> c == Orange600
    ensures index >= 3 <==> c == Gray300
  {
    if index == 0 then Yellow500
    else if index == 1 then Gray400
    else if index == 2 then Orange600
    else Gray300
  }

  /** No two rows share a rank label, and the plain colour goes exactly with the numbered labels. */
  lemma RankLabelsDistinct(i: nat, j: nat)
    requires i != j
    ensures RankIconOf(i) != RankIconOf(j)
    ensures RankColorOf(i) == Gray300 <==> RankIconOf(i).Numbered?
  {
  }

  // ---------------------------------------------------------------------
  // Summary figures
  // ---------------------------------------------------------------------

  /** "Puntaje más alto": the first row's score, or 0 for an empty table. */
  function Highest(ws: seq<Winner>): (h: int)
    ensures ws == [] ==> h == 0
    ensures ws != [] ==> h == ws[0].score
  {
    if ws == [] then 0 else ws[0].score
  }

  /** In descending order the first row's score really is the highest; in ascending order it is the lowest. */
  lemma HighestIsMaximum(ws: seq<Winner>)
    requires ws != []
    ensures Sorted(ws, Desc) ==> forall w :: w in ws ==> w.score <= Highest(ws)
    ensures Sorted(ws, Asc) ==> forall w :: w in ws ==> Highest(ws) <= w.score
  {
    forall w | w in ws
      ensures Sorted(ws, Desc) ==> w.score <= Highest(ws)
      ensures Sorted(ws, Asc) ==> Highest(ws) <= w.score
    {
      var k :| 0 <= k < |ws| && ws[k] == w;
      if k > 0 {
        assert InOrder(ws[0], ws[k], Desc) || !Sorted(ws, Desc);
        assert InOrder(ws[0], ws[k], Asc) || !Sorted(ws, Asc);
      }
    }
  }

  /** The `reduce` sum of the scores. */
  function SumScores(ws: seq<Winner>): int
  {
    if ws == [] then 0 else ws[0].score + SumScores(ws[1..])
  }

  /** Scores between lo and hi sum to between n·lo and n·hi. */
  lemma {:induction false} SumBounds(ws: seq<Winner>, lo: int, hi: int)
    requires forall i :: 0 <= i < |ws| ==> lo <= ws[i].score <= hi
    ensures |ws| * lo <= SumScores(ws) <= |ws| * hi
  {
    if ws != [] {
      var rest := ws[1..];
      assert forall i :: 0 <= i < |rest| ==> rest[i] == ws[i + 1];
      SumBounds(rest, lo, hi);
      MulStep(|rest|, lo);
      MulStep(|rest|, hi);
    }
  }

  /** The sum splits over a concatenation. */
  lemma {:induction false} SumScoresAppend(a: seq<Winner>, b: seq<Winner>)
    ensures SumScores(a + b) == SumScores(a) + SumScores(b)
  {
    if a == [] {
      assert a + b == b;
    } else {
      assert (a + b)[0] == a[0] && (a + b)[1..] == a[1..] + b;
      SumScoresAppend(a[1..], b);
    }
  }

  /** Taking row k out of the table takes its score out of the sum. */
  lemma SumScoresRemove(b: seq<Winner>, k: nat)
    requires k < |b|
    ensures SumScores(b) == b[k].score + SumScores(b[..k] + b[k + 1..])
  {
    var pre, post := b[..k], b[k + 1..];
    var tail := [b[k]] + post;
    assert b == pre + tail;
    assert tail[0] == b[k] && tail[1..] == post;
    SumScoresAppend(pre, tail);
    SumScoresAppend(pre, post);
  }

  /** A position at which a row of the multiset occurs. */
  lemma IndexOf(b: seq<Winner>, w: Winner) returns (k: nat)
    requires w in multiset(b)
    ensures k < |b| && b[k] == w
  {
    assert w in b;
    k :| 0 <= k < |b| && b[k] == w;
  }

  /** Matching the first row of a with row k of b leaves two permutations of each other. */
  lemma RestPermutes(a: seq<Winner>, b: seq<Winner>, k: nat)
    requires multiset(a) == multiset(b)
    requires a != [] && k < |b| && b[k] == a[0]
    ensures multiset(a[1..]) == multiset(b[..k] + b[k + 1..])
  {
    var ra := multiset(a[1..]);
    var rb := multiset(b[..k] + b[k + 1..]);
    assert a == [a[0]] + a[1..];
    assert b == b[..k] + [b[k]] + b[k + 1..];
    assert multiset(a) == ra + multiset{a[0]};
    assert multiset(b) == rb + multiset{a[0]};
    forall w
      ensures ra[w] == rb[w]
    {
      assert multiset(a)[w] == multiset(b)[w];
    }
  }

  /** The sum does not depend on the order of the rows. */
  lemma {:induction false} SumScoresPermutation(a: seq<Winner>, b: seq<Winner>)
    requires multiset(a) == multiset(b)
    ensures SumScores(a) == SumScores(b)
    decreases |a|
  {
    if a != [] {
      var k := IndexOf(b, a[0]);
      SumScoresRemove(b, k);
      RestPermutes(a, b, k);
      SumScoresPermutation(a[1..], b[..k] + b[k + 1..]);
    }
  }

  lemma MulStep(n: nat, x: int)
    ensures (n + 1) * x == x + n * x
  {
  }

  /** "Puntaje promedio": the rounded mean score, or 0 for an empty table. */
  function Average(ws: seq<Winner>): (a: int)
    ensures ws == [] ==> a == 0
    ensures ws != [] ==> a as real - 0.5 <= SumScores(ws) as real / |ws| as real < a as real + 0.5
  {
    if ws == [] then 0
    else Round(SumScores(ws) as real / |ws| as real)
  }

  /** The average lies between the lowest and the highest score of the table. */
  lemma AverageBetween(ws: seq<Winner>, lo: int, hi: int)
    requires ws != []
    requires forall w :: w in ws ==> lo <= w.score <= hi
    ensures lo <= Average(ws) <= hi
  {
    assert forall i :: 0 <= i < |ws| ==> ws[i] in ws;
    SumBounds(ws, lo, hi);
    MeanBounds(SumScores(ws), |ws|, lo, hi);
  }

  /** A sum between n·lo and n·hi has a rounded mean between lo and hi. */
  lemma MeanBounds(s: int, n: nat, lo: int, hi: int)
    requires n > 0 && n * lo <= s <= n * hi
    ensures lo <= Round(s as real / n as real) <= hi
  {
    var q := s as real / n as real;
    QuotientBetween(s, n, lo, hi);
    RoundMonotone(lo as real, q);
    RoundMonotone(q, hi as real);
  }

  /** s / n lies between lo and hi when s lies between n·lo and n·hi. */
  lemma QuotientBetween(s: int, n: nat, lo: int, hi: int)
    requires n > 0 && n * lo <= s <= n * hi
    ensures lo as real <= s as real / n as real <= hi as real
  {
    var c := n as real;
    var q := s as real / c;
    assert q * c == s as real;
    assert (n * lo) as real == lo as real * c;
    assert (n * hi) as real == hi as real * c;
    ScaleOrder(lo as real, q, c);
    ScaleOrder(q, hi as real, c);
  }

  /** Dividing both sides by a positive factor keeps the order. */
  lemma ScaleOrder(x: real, y: real, c: real)
    requires c > 0.0 && x * c <= y * c
    ensures x <= y
  {
  }

  /** The average card shows the same number in both orders: the mean of the filtered rows. */
  lemma AverageIndependentOfOrder(winners: seq<Winner>, term: string, o: SortOrder)
    ensures Average(Visible(winners, term, o)) == Average(Filter(winners, term))
  {
    var r := Visible(winners, term, o);
    var f := Filter(winners, term);
    SumScoresPermutation(r, f);
    assert |r| == |multiset(r)| == |multiset(f)| == |f|;
  }

  /** The orders and the search do not change what the summary counts: the table has the filtered rows, whatever the order. */
  lemma CountIndependentOfOrder(winners: seq<Winner>, term: string)
    ensures |Visible(winners, term, Asc)| == |Visible(winners, term, Desc)| == |Filter(winners, term)|
  {
  }
}

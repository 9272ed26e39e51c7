/** Which dashboards a download fetches: the -d id list is parsed, then the cached
    summaries are filtered by it (downloadDashboards), or all are taken (downloadAllDashboards). */
module Selection {
  import opened Results
  import opened Numbers
  import opened Summaries

  /** Python's s.split(sep) for a one-character separator: the pieces between
      separators, empty ones included; never an empty list. */
  function Split(s: string, sep: char): (r: seq<string>)
    ensures |r| >= 1
    ensures forall i :: 0 <= i < |r| ==> sep !in r[i]
  {
    if s == [] then [[]]
    else
      var rest := Split(s[1..], sep);
      if s[0] == sep then [[]] + rest
      else [[s[0]] + rest[0]] + rest[1..]
  }

  /** sep.join(pieces). */
  function Join(pieces: seq<string>, sep: char): string
  {
    if |pieces| == 0 then []
    else if |pieces| == 1 then pieces[0]
    else pieces[0] + [sep] + Join(pieces[1..], sep)
  }

  /** Splitting loses nothing: joining the pieces again gives the string back. */
  lemma {:induction false} JoinSplit(s: string, sep: char)
    ensures Join(Split(s, sep), sep) == s
  {
    if s != [] {
      var rest := Split(s[1..], sep);
      JoinSplit(s[1..], sep);
      if s[0] == sep {
        assert ([[]] + rest)[1..] == rest;
      } else {
        var pieces := [[s[0]] + rest[0]] + rest[1..];
        assert pieces[1..] == rest[1..];
        if |rest| > 1 {
          assert Join(rest, sep) == rest[0] + [sep] + Join(rest[1..], sep);
        }
        assert s == [s[0]] + s[1..];
      }
    }
  }

  lemma {:induction false} SplitNoSeparator(a: string, sep: char)
    requires sep !in a
    ensures Split(a, sep) == [a]
  {
    if a != [] {
      SplitNoSeparator(a[1..], sep);
      assert a == [a[0]] + a[1..];
    }
  }

  lemma {:induction false} SplitAfterPiece(a: string, b: string, sep: char)
    requires sep !in a
    ensures Split(a + [sep] + b, sep) == [a] + Split(b, sep)
  {
    var s := a + [sep] + b;
    if a == [] {
      assert s[1..] == b;
    } else {
      assert s[1..] == a[1..] + [sep] + b;
      SplitAfterPiece(a[1..], b, sep);
      assert a == [a[0]] + a[1..];
    }
  }

  /** Pieces free of the separator come back from splitting their join. */
  lemma {:induction false} SplitJoin(pieces: seq<string>, sep: char)
    requires |pieces| >= 1
    requires forall i :: 0 <= i < |pieces| ==> sep !in pieces[i]
    ensures Split(Join(pieces, sep), sep) == pieces
  {
    if |pieces| == 1 {
      SplitNoSeparator(pieces[0], sep);
    } else {
      SplitJoin(pieces[1..], sep);
      SplitAfterPiece(pieces[0], Join(pieces[1..], sep), sep);
      assert pieces == [pieces[0]] + pieces[1..];
    }
  }

  /** [int(t) for t in tokens]: the first token int() rejects is the error. */
  function ParseAll(tokens: seq<string>): Result<seq<int>, string>
  {
    if tokens == [] then Success([])
    else match ParseInt(tokens[0])
      case None => Failure(tokens[0])
      case Some(n) =>
        match ParseAll(tokens[1..])
        case Failure(bad) => Failure(bad)
        case Success(ns) => Success([n] + ns)
  }

  /** Parsing succeeds exactly when every token is decimal, and then gives their values in
      order; otherwise it reports the first token that is not. */
  lemma {:induction false} ParseAllMeaning(tokens: seq<string>)
    ensures ParseAll(tokens).Success? <==> forall i :: 0 <= i < |tokens| ==> IsDecimal(tokens[i])
    ensures ParseAll(tokens).Success? ==>
      |ParseAll(tokens).value| == |tokens|
      && forall i :: 0 <= i < |tokens| ==> ParseAll(tokens).value[i] == DecimalValue(tokens[i])
    ensures ParseAll(tokens).Failure? ==>
      exists k :: 0 <= k < |tokens| && ParseAll(tokens).error == tokens[k] && !IsDecimal(tokens[k])
        && forall j :: 0 <= j < k ==> IsDecimal(tokens[j])
  {
    if tokens != [] {
      ParseAllMeaning(tokens[1..]);
      if IsDecimal(tokens[0]) && ParseAll(tokens[1..]).Failure? {
        var k :| 0 <= k < |tokens[1..]| && ParseAll(tokens[1..]).error == tokens[1..][k]
          && !IsDecimal(tokens[1..][k]) && forall j :: 0 <= j < k ==> IsDecimal(tokens[1..][j]);
        assert ParseAll(tokens).error == tokens[k + 1];
        assert forall j :: 0 <= j < k + 1 ==> IsDecimal(tokens[j]) by {
          forall j | 0 <= j < k + 1 ensures IsDecimal(tokens[j]) {
            if j > 0 {
              assert tokens[j] == tokens[1..][j - 1];
            }
          }
        }
      }
    }
  }

  /** wanted = [int(dashId) for dashId in l.split(',')]. */
  function ParseIdList(list: string): Result<seq<int>, string>
  {
    ParseAll(Split(list, ','))
  }

  function ShowAll(ids: seq<nat>): (r: seq<string>)
    ensures |r| == |ids|
    ensures forall i :: 0 <= i < |ids| ==> r[i] == ShowNat(ids[i])
  {
    if ids == [] then [] else [ShowNat(ids[0])] + ShowAll(ids[1..])
  }

  /** An id list written as comma-separated decimals parses back to the same ids. */
  lemma ParseIdListRoundTrip(ids: seq<nat>)
    requires |ids| >= 1
    ensures ParseIdList(Join(ShowAll(ids), ',')) == Success(ids)
  {
    var shown := ShowAll(ids);
    forall i | 0 <= i < |shown| ensures ',' !in shown[i] {
      assert IsDecimal(shown[i]);
      assert forall j :: 0 <= j < |shown[i]| ==> shown[i][j] != ',';
    }
    SplitJoin(shown, ',');
    ParseShownIds(ids);
  }

  lemma {:induction false} ParseShownIds(ids: seq<nat>)
    ensures ParseAll(ShowAll(ids)) == Success(ids)
  {
    if ids != [] {
      ParseShowNat(ids[0]);
      assert ShowAll(ids)[1..] == ShowAll(ids[1..]);
      ParseShownIds(ids[1..]);
      assert ids == [ids[0]] + ids[1..];
    }
  }

  /** The command line "-d 1,3" asks for dashboards 1 and 3. */
  lemma ParseIdListExample()
    ensures ParseIdList("1,3") == Success([1, 3])
  {
    ParseIdListRoundTrip([1, 3]);
    assert ShowNat(1) == "1" && ShowNat(3) == "3";
    assert Join(ShowAll([1, 3]), ',') == "1,3";
  }

  /** The cached summaries whose id was asked for, in cached order. */
  function Selected(dashboards: seq<Summary>, wanted: seq<int>): seq<Summary>
  {
    if dashboards == [] then []
    else (if dashboards[0].id in wanted then [dashboards[0]] else []) + Selected(dashboards[1..], wanted)
  }

  /** [dashTuple[1] for dashTuple in dashboards]. */
  function Uids(dashboards: seq<Summary>): (r: seq<string>)
    ensures |r| == |dashboards|
    ensures forall i :: 0 <= i < |dashboards| ==> r[i] == dashboards[i].uid
  {
    if dashboards == [] then [] else [dashboards[0].uid] + Uids(dashboards[1..])
  }

  function Ids(dashboards: seq<Summary>): (r: seq<int>)
    ensures |r| == |dashboards|
    ensures forall i :: 0 <= i < |dashboards| ==> r[i] == dashboards[i].id
  {
    if dashboards == [] then [] else [dashboards[0].id] + Ids(dashboards[1..])
  }

  /** The uids downloadDashboards fetches for the parsed id list wanted. */
  function SelectUids(dashboards: seq<Summary>, wanted: seq<int>): seq<string>
  {
    Uids(Selected(dashboards, wanted))
  }

  /** a is a subsequence of b: b with some elements left out. */
  ghost predicate IsSubsequence(a: seq<Summary>, b: seq<Summary>)
    decreases |b|
  {
    if b == [] then a == []
    else (a != [] && a[0] == b[0] && IsSubsequence(a[1..], b[1..])) || IsSubsequence(a, b[1..])
  }

  /** A summary is selected exactly when it is cached and its id was asked for. */
  lemma {:induction false} SelectedMembers(dashboards: seq<Summary>, wanted: seq<int>, d: Summary)
    ensures d in Selected(dashboards, wanted) <==> d in dashboards && d.id in wanted
  {
    if dashboards != [] {
      SelectedMembers(dashboards[1..], wanted, d);
      assert d in dashboards <==> d == dashboards[0] || d in dashboards[1..];
    }
  }

  /** Every copy of a selected summary is kept, and nothing else. */
  lemma {:induction false} SelectedMultiplicity(dashboards: seq<Summary>, wanted: seq<int>, d: Summary)
    ensures multiset(Selected(dashboards, wanted))[d] == if d.id in wanted then multiset(dashboards)[d] else 0
  {
    if dashboards != [] {
      SelectedMultiplicity(dashboards[1..], wanted, d);
      assert dashboards == [dashboards[0]] + dashboards[1..];
    }
  }

  /** The selection keeps cached order, not the order of the request. */
  lemma {:induction false} SelectedInCachedOrder(dashboards: seq<Summary>, wanted: seq<int>)
    ensures IsSubsequence(Selected(dashboards, wanted), dashboards)
  {
    if dashboards != [] {
      SelectedInCachedOrder(dashboards[1..], wanted);
      var r := Selected(dashboards, wanted);
      if dashboards[0].id in wanted {
        assert r[1..] == Selected(dashboards[1..], wanted);
      } else {
        assert r == Selected(dashboards[1..], wanted);
      }
    }
  }

  /** Only which cached ids were asked for matters: not the order of the request,
      not repetitions, not ids that no summary has. */
  lemma {:induction false} SelectedDependsOnCachedIdsOnly(dashboards: seq<Summary>, w1: seq<int>, w2: seq<int>)
    requires forall i :: 0 <= i < |dashboards| ==> (dashboards[i].id in w1 <==> dashboards[i].id in w2)
    ensures Selected(dashboards, w1) == Selected(dashboards, w2)
  {
    if dashboards != [] {
      SelectedDependsOnCachedIdsOnly(dashboards[1..], w1, w2);
    }
  }

  /** Asking for an id twice fetches its dashboards once. */
  lemma RepeatedIdFetchedOnce(dashboards: seq<Summary>, wanted: seq<int>, id: int)
    requires id in wanted
    ensures SelectUids(dashboards, wanted + [id]) == SelectUids(dashboards, wanted)
  {
    SelectedDependsOnCachedIdsOnly(dashboards, wanted + [id], wanted);
  }

  /** An id that no cached summary has contributes nothing. */
  lemma UnknownIdIgnored(dashboards: seq<Summary>, wanted: seq<int>, id: int)
    requires forall i :: 0 <= i < |dashboards| ==> dashboards[i].id != id
    ensures SelectUids(dashboards, wanted + [id]) == SelectUids(dashboards, wanted)
  {
    SelectedDependsOnCachedIdsOnly(dashboards, wanted + [id], wanted);
  }

  /** Asking for every cached id selects every cached summary, in order. */
  lemma {:induction false} SelectedEverything(dashboards: seq<Summary>, wanted: seq<int>)
    requires forall i :: 0 <= i < |dashboards| ==> dashboards[i].id in wanted
    ensures Selected(dashboards, wanted) == dashboards
  {
    if dashboards != [] {
      SelectedEverything(dashboards[1..], wanted);
      assert dashboards == [dashboards[0]] + dashboards[1..];
    }
  }

  /** downloadAllDashboards' uid list is the selection for every cached id. */
  lemma AllUidsIsFullSelection(dashboards: seq<Summary>)
    ensures Uids(dashboards) == SelectUids(dashboards, Ids(dashboards))
  {
    SelectedEverything(dashboards, Ids(dashboards));
  }
}

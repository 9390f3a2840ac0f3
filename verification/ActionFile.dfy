// Loading one autoinstall file: the parsed actions are sorted, then
// neighbours are compared to find a serial used twice.

module ActionFile {
  import opened Actions
  import opened ActionSort

  datatype LoadResult = Loaded(actions: seq<RefAction>) | SharedSerial(serial: int32)

  ghost predicate StrictlyIncreasing(s: seq<RefAction>) {
    forall i, j :: 0 <= i < j < |s| ==> s[i].serial < s[j].serial
  }

  ghost predicate SerialsDistinct(s: seq<RefAction>) {
    forall i, j :: 0 <= i < j < |s| ==> s[i].serial != s[j].serial
  }

  /** The first serial, from position i on, equal to the one in front of it. */
  function Scan(s: seq<RefAction>, i: nat): LoadResult
    decreases |s| - i
  {
    if i >= |s| then Loaded(s)
    else if i > 0 && s[i - 1].serial == s[i].serial then SharedSerial(s[i].serial)
    else Scan(s, i + 1)
  }

  function Load(parsed: seq<RefAction>): LoadResult {
    Scan(Sort(parsed), 1)
  }

  method LoadActions(parsed: seq<RefAction>) returns (r: LoadResult)
    ensures r == Load(parsed)
  {
    var actions := Sort(parsed);
    var i := 1;
    while i < |actions|
      invariant 1 <= i
      invariant Scan(actions, 1) == Scan(actions, i)
    {
      if actions[i - 1].serial == actions[i].serial {
        return SharedSerial(actions[i - 1].serial);
      }
      i := i + 1;
    }
    return Loaded(actions);
  }

  lemma {:induction false} ScanFindsRepeat(s: seq<RefAction>, i: nat)
    requires i >= 1
    ensures Scan(s, i).Loaded? <==> forall j :: i <= j < |s| ==> s[j - 1].serial != s[j].serial
    ensures Scan(s, i).Loaded? ==> Scan(s, i).actions == s
    ensures Scan(s, i).SharedSerial? ==>
              exists j :: i <= j < |s| && s[j - 1].serial == s[j].serial == Scan(s, i).serial
    decreases |s| - i
  {
    if i < |s| && s[i - 1].serial != s[i].serial {
      ScanFindsRepeat(s, i + 1);
    }
  }

  lemma {:induction false} AscendingNeighboursSuffice(s: seq<RefAction>)
    requires SerialsAscend(s)
    requires forall j :: 1 <= j < |s| ==> s[j - 1].serial != s[j].serial
    ensures StrictlyIncreasing(s)
  {
    forall i, j | 0 <= i < j < |s| ensures s[i].serial < s[j].serial {
      assert s[j - 1].serial != s[j].serial;
      assert i < j - 1 ==> s[i].serial <= s[j - 1].serial;
    }
  }

  /** A file without repeated serials always loads, what loads is its entries,
      and an error names a serial that is repeated.  Within the range where
      subtracting serials cannot overflow, every repeated serial is found and
      what loads is strictly increasing. */
  lemma {:induction false} LoadsIffSerialsDistinct(parsed: seq<RefAction>)
    ensures SerialsDistinct(parsed) ==> Load(parsed).Loaded?
    ensures Load(parsed).Loaded? ==> multiset(Load(parsed).actions) == multiset(parsed)
    ensures Load(parsed).SharedSerial? ==> Repeats(parsed, Load(parsed).serial)
    ensures SpreadFits(parsed) && Load(parsed).Loaded? ==>
              SerialsDistinct(parsed) && StrictlyIncreasing(Load(parsed).actions)
  {
    var s := Sort(parsed);
    SortIsPermutation(parsed);
    ScanFindsRepeat(s, 1);
    if Load(parsed).SharedSerial? {
      var k :| 1 <= k < |s| && s[k - 1].serial == s[k].serial == Load(parsed).serial;
      RepeatSurvives(s, k - 1, k, parsed);
    } else if SpreadFits(parsed) {
      SortAscends(parsed);
      AscendingNeighboursSuffice(s);
      forall i, j | 0 <= i < j < |parsed| ensures parsed[i].serial != parsed[j].serial {
        if parsed[i].serial == parsed[j].serial {
          RepeatSurvives(parsed, i, j, s);
        }
      }
    }
  }

  ghost predicate Repeats(s: seq<RefAction>, serial: int32) {
    exists i, j :: 0 <= i < j < |s| && s[i].serial == s[j].serial == serial
  }

  /** t has the entries of s, in some order. */
  ghost predicate Rearranges(t: seq<RefAction>, s: seq<RefAction>) {
    multiset(t) == multiset(s)
  }

  ghost predicate LoadsInOrder(s: seq<RefAction>) {
    Load(s).Loaded? && StrictlyIncreasing(Load(s).actions)
  }

  /** Entries with distinct serials load in strictly increasing order, however
      they are arranged in the file, exactly when no two serials are more than
      MAX_INT32 apart. */
  lemma {:induction false} LoadsInOrderIffSpreadFits(parsed: seq<RefAction>)
    requires SerialsDistinct(parsed)
    ensures (forall t :: Rearranges(t, parsed) ==> LoadsInOrder(t)) <==> SpreadFits(parsed)
  {
    forall t | Rearranges(t, parsed) ensures LoadsInOrder(t) <==> SerialsAscend(Sort(t)) {
      LoadedIsSorted(parsed, t);
    }
    SortAscendsIffSpreadFits(parsed);
    if SpreadFits(parsed) {
      forall t | Rearranges(t, parsed) ensures LoadsInOrder(t) {
        assert SerialsAscend(Sort(t));
      }
    } else {
      var t :| multiset(t) == multiset(parsed) && !SerialsAscend(Sort(t));
      assert Rearranges(t, parsed) && !LoadsInOrder(t);
    }
  }

  lemma {:induction false} LoadedIsSorted(parsed: seq<RefAction>, t: seq<RefAction>)
    requires SerialsDistinct(parsed) && Rearranges(t, parsed)
    ensures LoadsInOrder(t) <==> SerialsAscend(Sort(t))
  {
    LoadsIffSerialsDistinct(t);
    ScanFindsRepeat(Sort(t), 1);
    if Load(t).SharedSerial? {
      var i, j :| 0 <= i < j < |t| && t[i].serial == t[j].serial == Load(t).serial;
      RepeatSurvives(t, i, j, parsed);
    } else if SerialsAscend(Sort(t)) {
      AscendingNeighboursSuffice(Sort(t));
    }
  }

  /** Two entries that share a serial, with one 2^31 below between them, go
      unnoticed. */
  lemma {:induction false} RepeatUnnoticed(x: RefAction, far: RefAction, y: RefAction)
    requires !x.isDependency && !far.isDependency && !y.isDependency
    requires x.serial == y.serial && x.serial as int - far.serial as int == MAX_INT32 as int + 1
    ensures !SerialsDistinct([x, far, y]) && Load([x, far, y]) == Loaded([x, far, y])
  {
    var s := [x, far, y];
    assert s[0].serial == s[2].serial;
    assert Compare(x, far) < 0 && Compare(far, y) < 0;
    assert s[..1] == [x] && s[1..] == [far, y] && [far, y][..1] == [far] && [far, y][1..] == [y];
    assert Sort([far, y]) == Merge([far], [y]) == [far] + Merge([far][1..], [y]) == [far, y];
    assert Sort(s) == Merge([x], [far, y]) == [x] + Merge([x][1..], [far, y]) == s;
    assert Scan(s, 3) == Loaded(s) && Scan(s, 2) == Loaded(s);
  }

  lemma {:induction false} RepeatSurvives(s: seq<RefAction>, i: nat, j: nat, t: seq<RefAction>)
    requires multiset(s) == multiset(t) && i < j < |s| && s[i].serial == s[j].serial
    ensures exists k, l :: 0 <= k < l < |t| && t[k].serial == t[l].serial == s[i].serial
  {
    assert s[i] in multiset(t) && s[j] in multiset(t);
    var k :| 0 <= k < |t| && t[k] == s[i];
    if s[i] == s[j] {
      assert s == s[..j] + s[j..];
      assert s[i] in s[..j] && s[j] in s[j..];
      assert t == t[..k] + [t[k]] + t[k + 1..];
      assert s[i] in multiset(t[..k]) || s[i] in multiset(t[k + 1..]);
      if s[i] in t[..k] {
        var l :| 0 <= l < k && t[..k][l] == s[i];
        assert t[l].serial == t[k].serial == s[i].serial;
      } else {
        var l :| 0 <= l < |t| - k - 1 && t[k + 1..][l] == s[i];
        assert t[k].serial == t[k + 1 + l].serial == s[i].serial;
      }
    } else {
      var l :| 0 <= l < |t| && t[l] == s[j];
      if k < l {
        assert t[k].serial == t[l].serial == s[i].serial;
      } else {
        assert t[l].serial == t[k].serial == s[i].serial;
      }
    }
  }
}

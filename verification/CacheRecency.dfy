module CacheRecency {
  // How long a cache holds a frame, told from what was used since.

  import opened Text
  import opened CaptureCache

  const HEX_DIGITS := "0123456789abcdef"

  lemma IdsAreHex(id: string)
    ensures ValidCaptureId(id) <==> |id| == 32 && forall c <- id :: c in HEX_DIGITS
  {
    if ValidCaptureId(id) {
      forall c <- id ensures c in HEX_DIGITS {
        var i :| 0 <= i < |id| && id[i] == c;
        IsHexDigit(c);
      }
    }
    if |id| == 32 && forall c <- id :: c in HEX_DIGITS {
      forall i | 0 <= i < |id| ensures '0' <= id[i] <= '9' || 'a' <= id[i] <= 'f' {
        assert id[i] in id;
        IsHexDigit(id[i]);
      }
    }
  }

  lemma IsHexDigit(c: char)
    ensures c in HEX_DIGITS <==> '0' <= c <= '9' || 'a' <= c <= 'f'
  {
    if '0' <= c <= '9' { assert HEX_DIGITS[c as int - '0' as int] == c; }
    if 'a' <= c <= 'f' { assert HEX_DIGITS[c as int - 'a' as int + 10] == c; }
  }

  lemma StandsAlone(frame: Frame, maxEntries: nat, maxBytes: nat)
    ensures WithinBudget([frame], maxEntries, maxBytes) <==> maxEntries > 0 && |frame.pixels.rgba| <= maxBytes
  {
    BytesAndLast([], frame);
    assert [] + [frame] == [frame];
  }

  /** A capture is taken exactly when it is well formed and could stand in the cache alone, and then it is
      found. */
  lemma TakenExactlyWhen(list: seq<Frame>, id: string, pixels: RgbaImage, maxEntries: nat, maxBytes: nat)
    ensures Storable(id, pixels, maxEntries, maxBytes)
       <==> && |id| == 32 && (forall c <- id :: c in HEX_DIGITS)
            && 1 <= pixels.width <= 2048 && 1 <= pixels.height <= 2048
            && |pixels.rgba| == 4 * (pixels.width * pixels.height)
            && WithinBudget([Frame(id, pixels)], maxEntries, maxBytes)
    ensures Storable(id, pixels, maxEntries, maxBytes) ==>
              Lookup(Stored(list, id, pixels, maxEntries, maxBytes), id) == Some(pixels)
  {
    hide ValidCaptureId, CheckedRgbaSize, WithinBudget, Without, Evicted;
    IdsAreHex(id);
    StandsAlone(Frame(id, pixels), maxEntries, maxBytes);
  }

  /** The frame a use makes the most recently used one. */
  function UsedBy(list: seq<Frame>, use: Use, maxEntries: nat, maxBytes: nat): Option<Frame> {
    match use
    case Store(id, pixels) => if Storable(id, pixels, maxEntries, maxBytes) then Some(Frame(id, pixels)) else None
    case Find(id) =>
      if ValidCaptureId(id) && Lookup(list, id).Some? then Some(Frame(id, Lookup(list, id).value)) else None
  }

  /** `f` and what was used since, `recent`, fit beside every frame stored from here on. Each frame counts once,
      as it was used last. */
  predicate Stays(list: seq<Frame>, f: Frame, recent: seq<Frame>, uses: seq<Use>, maxEntries: nat, maxBytes: nat)
    decreases |uses|
  {
    uses != [] ==>
      var used := UsedBy(list, uses[0], maxEntries, maxBytes);
      var next := After(list, [uses[0]], maxEntries, maxBytes);
      if used.None? then Stays(next, f, recent, uses[1..], maxEntries, maxBytes)
      else
        var others := Without(recent, used.value.id);
        && (uses[0].Store? ==> FitsBeside([f] + others, |used.value.pixels.rgba|, maxEntries, maxBytes))
        && Stays(next, f, others + [used.value], uses[1..], maxEntries, maxBytes)
  }

  lemma {:induction false} BytesJoin(a: seq<Frame>, b: seq<Frame>)
    ensures Bytes(a + b) == Bytes(a) + Bytes(b)
  {
    if b == [] {
      assert a + b == a;
    } else {
      BytesJoin(a, b[..|b| - 1]);
      assert (a + b)[..|a + b| - 1] == a + b[..|b| - 1];
    }
  }

  lemma {:induction false} WithoutJoins(a: seq<Frame>, b: seq<Frame>, id: string)
    ensures Without(a + b, id) == Without(a, id) + Without(b, id)
  {
    if b == [] {
      assert a + b == a && Without(a, id) + [] == Without(a, id);
    } else {
      WithoutJoins(a, b[..|b| - 1], id);
      assert (a + b)[..|a + b| - 1] == a + b[..|b| - 1];
    }
  }

  lemma WithoutAround(a: seq<Frame>, f: Frame, b: seq<Frame>, id: string)
    requires f.id != id
    ensures Without(a + ([f] + b), id) == Without(a, id) + ([f] + Without(b, id))
  {
    hide Without;
    WithoutJoins(a, [f] + b, id);
    WithoutJoins([f], b, id);
    WithoutOther(f, id);
  }

  lemma WithoutOther(f: Frame, id: string)
    requires f.id != id
    ensures Without([f], id) == [f]
  {
    assert [f][..0] == [];
  }

  lemma IsThere(list: seq<Frame>, f: Frame)
    requires NoIdTwice(list) && f in list
    ensures Lookup(list, f.id) == Some(f.pixels)
  {
    hide Lookup;
    LookupFinds(list, f.id);
  }

  lemma {:induction false} GoneIsGone(list: seq<Frame>, id: string, uses: seq<Use>, maxEntries: nat, maxBytes: nat)
    requires Lookup(list, id).None? && forall u <- uses :: u.id != id
    ensures Lookup(After(list, uses, maxEntries, maxBytes), id).None?
    decreases |uses|
  {
    if uses != [] {
      var next := After(list, [uses[0]], maxEntries, maxBytes);
      OneUse(list, uses, maxEntries, maxBytes);
      StepBringsNoOther(list, id, uses[0], maxEntries, maxBytes);
      GoneIsGone(next, id, uses[1..], maxEntries, maxBytes);
    }
  }

  lemma OneUse(list: seq<Frame>, uses: seq<Use>, maxEntries: nat, maxBytes: nat)
    requires uses != []
    ensures After(list, uses, maxEntries, maxBytes)
         == After(After(list, [uses[0]], maxEntries, maxBytes), uses[1..], maxEntries, maxBytes)
  {
    assert [uses[0]][1..] == [];
  }

  /** What one use does to the list. */
  lemma AfterOne(list: seq<Frame>, use: Use, maxEntries: nat, maxBytes: nat)
    ensures var used, next := UsedBy(list, use, maxEntries, maxBytes), After(list, [use], maxEntries, maxBytes);
      && (used.None? ==> next == list)
      && (used.Some? ==>
            && used.value.id == use.id && (use.Store? ==> maxEntries > 0 && |used.value.pixels.rgba| <= maxBytes)
            && var rest := Without(list, use.id);
               next == (if use.Store? then Evicted(rest, |used.value.pixels.rgba|, maxEntries, maxBytes) else rest) + [used.value])
  {
    hide Without, Evicted, Lookup;
    assert [use][1..] == [];
  }

  lemma StepBringsNoOther(list: seq<Frame>, id: string, use: Use, maxEntries: nat, maxBytes: nat)
    requires Lookup(list, id).None? && use.id != id
    ensures Lookup(After(list, [use], maxEntries, maxBytes), id).None?
  {
    hide Lookup, After, Without, Evicted, UsedBy;
    AfterOne(list, use, maxEntries, maxBytes);
    var used := UsedBy(list, use, maxEntries, maxBytes);
    if used.Some? {
      LookupFinds(list, id);
      WithoutForgets(list, use.id);
      if use.Store? { KeepsTheLongestThatFits(Without(list, use.id), |used.value.pixels.rgba|, maxEntries, maxBytes); }
      LookupFinds(After(list, [use], maxEntries, maxBytes), id);
    }
  }

  /** A store leaves a frame where it is exactly when it fits beside that frame and what was used since. */
  lemma EvictsExactlyTo(before: seq<Frame>, f: Frame, recent: seq<Frame>, size: nat, maxEntries: nat, maxBytes: nat)
    returns (rest: seq<Frame>)
    requires maxEntries > 0 && size <= maxBytes
    ensures var kept := Evicted(before + ([f] + recent), size, maxEntries, maxBytes);
      if FitsBeside([f] + recent, size, maxEntries, maxBytes) then kept == rest + ([f] + recent)
      else forall g <- kept :: g in recent
  {
    hide Evicted, Bytes;
    var list := before + ([f] + recent);
    KeepsTheLongestThatFits(list, size, maxEntries, maxBytes);
    var kept := Evicted(list, size, maxEntries, maxBytes);
    var k := |list| - |kept|;
    assert list[|before|..] == [f] + recent;
    rest := [];
    if k <= |before| {
      rest := before[k..];
      assert list[k..] == rest + ([f] + recent);
      BytesJoin(rest, [f] + recent);
    } else {
      assert list[k..] == recent[k - |before| - 1..];
      assert !FitsBeside(list[|before|..], size, maxEntries, maxBytes);
    }
  }

  /** From its last use on, a frame is found exactly as long as it and everything used since fit beside each frame
      that is stored. What was in the cache before it does not matter. */
  lemma {:induction false} HeldExactlyWhileItFits(
      list: seq<Frame>, before: seq<Frame>, f: Frame, recent: seq<Frame>, uses: seq<Use>, maxEntries: nat, maxBytes: nat)
    requires list == before + ([f] + recent) && NoIdTwice(list) && WithinBudget(list, maxEntries, maxBytes)
    requires forall u <- uses :: u.id != f.id
    ensures Lookup(After(list, uses, maxEntries, maxBytes), f.id)
         == if Stays(list, f, recent, uses, maxEntries, maxBytes) then Some(f.pixels) else None
    decreases |uses|
  {
    hide After, Lookup, NoIdTwice, WithinBudget, Without, Evicted, UsedBy, FitsBeside;
    if uses == [] {
      assert list[|before|] == f;
      NothingUsed(list, maxEntries, maxBytes);
      IsThere(list, f);
    } else {
      var use := uses[0];
      var next := After(list, [use], maxEntries, maxBytes);
      OneUse(list, uses, maxEntries, maxBytes);
      AfterOne(list, use, maxEntries, maxBytes);
      RunKeepsBudget(list, [use], maxEntries, maxBytes);
      var used := UsedBy(list, use, maxEntries, maxBytes);
      if used.None? {
        HeldExactlyWhileItFits(next, before, f, recent, uses[1..], maxEntries, maxBytes);
      } else {
        WithoutAround(before, f, recent, use.id);
        var others := Without(recent, use.id);
        var rest := Without(before, use.id);
        if use.Store? {
          rest := EvictsExactlyTo(rest, f, others, |used.value.pixels.rgba|, maxEntries, maxBytes);
        }
        if use.Store? && !FitsBeside([f] + others, |used.value.pixels.rgba|, maxEntries, maxBytes) {
          NotAmong(list, before, f, recent, use.id);
          LookupFinds(next, f.id);
          GoneIsGone(next, f.id, uses[1..], maxEntries, maxBytes);
        } else {
          assert rest + ([f] + others) + [used.value] == rest + ([f] + (others + [used.value]));
          HeldExactlyWhileItFits(next, rest, f, others + [used.value], uses[1..], maxEntries, maxBytes);
        }
      }
    }
  }

  lemma NothingUsed(list: seq<Frame>, maxEntries: nat, maxBytes: nat)
    ensures After(list, [], maxEntries, maxBytes) == list
  {
  }

  lemma NotAmong(list: seq<Frame>, before: seq<Frame>, f: Frame, recent: seq<Frame>, id: string)
    requires list == before + ([f] + recent) && NoIdTwice(list)
    ensures forall g <- Without(recent, id) :: g.id != f.id
  {
    hide Without;
    WithoutForgets(recent, id);
    forall g <- Without(recent, id) ensures g.id != f.id {
      var i :| 0 <= i < |recent| && recent[i] == g;
      assert list[|before|] == f && list[|before| + 1 + i] == g;
    }
  }
}

// The mode observer as the daemon runs it: one object per pane, updated in place by
// every PTY read. Its methods are proved against the functions of ModeState and
// ModePrefix, which carry the properties.
module ModeObserver {
  import opened Text
  import opened ModeState
  import opened ModePrefix

  class Observer {
    var modes: Modes
    var pending: string

    ghost function State(): Observed
      reads this
    {
      Observed(modes, pending)
    }

    constructor ()
      ensures State() == Observed(Fresh, "")
    {
      modes := Fresh;
      pending := "";
    }

    // Observe walks the carry-over and the new bytes sequence by sequence.
    method Observe(data: string)
      modifies this
      ensures State() == ModeState.Observe(old(State()), data)
      ensures |pending| <= MAX_PENDING_BYTES
    {
      hide SequenceEnd, Effect;
      var buffer := pending + data;
      pending := "";
      var index := 0;
      assert buffer[0..] == buffer;
      while index < |buffer|
        invariant index <= |buffer|
        invariant Scan(old(modes), buffer) == Scan(modes, buffer[index..])
        invariant pending == ""
      {
        ghost var before := modes;
        var rest := buffer[index..];
        var consumed := ObserveNext(rest);
        if consumed == 0 {
          KeepPending(rest);
          return;
        }
        assert Scan(before, rest) == Scan(modes, rest[consumed..]);
        assert rest[consumed..] == buffer[index + consumed..];
        index := index + consumed;
      }
    }

    // Applies the sequence `rest` starts with; consumes nothing if it is unfinished.
    method ObserveNext(rest: string) returns (consumed: nat)
      requires rest != ""
      modifies this`modes
      ensures consumed == 0 <==> SequenceEnd(rest).None?
      ensures consumed == 0 ==> modes == old(modes)
      ensures consumed > 0 ==> SequenceEnd(rest) == Some(consumed) && modes == Effect(old(modes), rest)
    {
      hide ObserveCSI, ObserveOSC, FinalIndex, OscEnd;
      if rest[0] != ESC { return 1; }
      if |rest| == 1 { return 0; }
      if rest[1] == '[' {
        var final := FindFinal(rest, 2);
        if final == |rest| { return 0; }
        ObserveSequence(rest[2..final], rest[final]);
        return final + 1;
      }
      if rest[1] == ']' {
        var end := FindOscEnd(rest, 2);
        if end == |rest| { return 0; }
        modes := ObserveOSC(modes, rest[2..end]);
        return if rest[end] == BEL then end + 1 else end + 2;
      }
      modes := ObserveEscape(modes, rest[1]);
      return 2;
    }

    method KeepPending(data: string)
      modifies this`pending
      ensures pending == Keep(data)
    {
      pending := if |data| > MAX_PENDING_BYTES then data[|data| - MAX_PENDING_BYTES..] else data;
    }

    method ObserveSequence(params: string, final: char)
      modifies this`modes
      ensures modes == ObserveCSI(old(modes), params, final)
    {
      if final == 'u' {
        ObserveKittyKeyboard(params);
      } else if final == 'r' && !HasPrefix(params, "?") {
        modes := modes.(scrollRegion := params);
      } else if final == 'q' && params != "" && params[|params| - 1] == ' ' {
        modes := modes.(cursorShape := params);
      } else if final == 'h' || final == 'l' {
        SetModes(params, final == 'h');
      }
    }

    method SetModes(params: string, enabled: bool)
      modifies this`modes
      ensures modes == ObserveModes(old(modes), params, enabled)
    {
      if HasPrefix(params, "?") {
        var parameters := Split(params[1..], ';');
        for i := 0 to |parameters|
          invariant modes == SetPrivates(old(modes), parameters[..i], enabled)
        {
          assert parameters[..i + 1][..i] == parameters[..i];
          var mode := Atoi(parameters[i]);
          if mode.Some? { modes := SetPrivate(modes, mode.value, enabled); }
        }
        assert parameters[..|parameters|] == parameters;
      } else {
        var parameters := Split(params, ';');
        for i := 0 to |parameters|
          invariant modes == if "4" in parameters[..i] then old(modes).(insertMode := enabled) else old(modes)
        {
          if parameters[i] == "4" { modes := modes.(insertMode := enabled); }
        }
      }
    }

    method ObserveKittyKeyboard(params: string)
      modifies this`modes
      ensures modes == ObserveKitty(old(modes), params)
    {
      if params == "" { return; }
      if params[0] == '>' {
        modes := modes.(kittyStack := modes.kittyStack + [modes.kittyFlags], kittyFlags := params[1..]);
      } else if params[0] == '=' {
        modes := modes.(kittyFlags := params[1..]);
      } else if params[0] == '<' {
        var count := PopCount(params);
        while count > 0 && modes.kittyStack != []
          invariant PopKitty(modes, count) == PopKitty(old(modes), PopCount(params))
          decreases count
        {
          var top := |modes.kittyStack| - 1;
          modes := modes.(kittyFlags := modes.kittyStack[top], kittyStack := modes.kittyStack[..top]);
          count := count - 1;
        }
      }
    }

    // The prefix is appended item by item to one buffer.
    method Print() returns (prefix: string)
      ensures prefix == Prefix(modes)
    {
      hide AlternateItem, InsertItem, ScrollItem, ShapeItem, KeypadItem, KittyItem, TitleItem, PrivateItem;
      prefix := AlternateItem(modes.alternateScreen);
      ghost var start := prefix;
      for i := 0 to |LISTED|
        invariant prefix == start + ListedItems(modes, LISTED[..i])
      {
        assert LISTED[..i + 1][..i] == LISTED[..i];
        var enabled := LISTED[i] in modes.privateModes && modes.privateModes[LISTED[i]];
        if LISTED[i] in modes.privateModes && (enabled || LISTED[i] == 7 || LISTED[i] == 25) {
          prefix := prefix + PrivateItem(LISTED[i], enabled);
        }
      }
      assert LISTED[..|LISTED|] == LISTED;
      prefix := prefix + (InsertItem(modes.insertMode) + (ScrollItem(modes.scrollRegion) + ShapeItem(modes.cursorShape)));
      prefix := prefix + (KeypadItem(modes.keypadApp) + (KittyItem(modes.kittyFlags) + TitleItem(modes.title)));
      prefix := prefix + PrivateItem(2026, false);
    }
  }

  method FindFinal(data: string, from: nat) returns (final: nat)
    requires from <= |data|
    ensures final == FinalIndex(data, from)
  {
    final := from;
    while final < |data| && !IsFinal(data[final])
      invariant from <= final <= |data|
      invariant FinalIndex(data, final) == FinalIndex(data, from)
    {
      final := final + 1;
    }
  }

  method FindOscEnd(data: string, from: nat) returns (end: nat)
    requires from <= |data|
    ensures end == OscEnd(data, from)
  {
    end := from;
    while end < |data|
      invariant from <= end <= |data|
      invariant OscEnd(data, end) == OscEnd(data, from)
    {
      if data[end] == BEL { return; }
      if data[end] == ESC && end + 1 < |data| && data[end + 1] == '\\' { return; }
      end := end + 1;
    }
  }
}

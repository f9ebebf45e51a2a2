/** Which texts and transitions the history readers admit: exactly those a daemon can write. */
module WireRecords {
  import opened Prelude
  import opened Identity
  import opened HistoryWire
  import opened History
  import Decimal

  lemma PrintOne(s: string)
    requires |s| == 1 && Decimal.IsDigit(s[0])
    ensures Decimal.Value(s) == Decimal.DigitValue(s[0]) && Decimal.Print(Decimal.Value(s)) == s
  {
    assert s[..0] == "";
  }

  /** Digits without a leading zero are what their value prints as. */
  lemma {:induction false} PrintOfValue(s: string)
    requires s != "" && Decimal.AllDigits(s) && s[0] != '0'
    ensures Decimal.Value(s) > 0 && Decimal.Print(Decimal.Value(s)) == s
  {
    if |s| == 1 {
      PrintOne(s);
    } else {
      var front, last := s[..|s| - 1], Decimal.DigitValue(s[|s| - 1]);
      assert front[0] == s[0];
      PrintOfValue(front);
      assert Decimal.Value(s) / 10 == Decimal.Value(front) && Decimal.Value(s) % 10 == last;
      assert s == front + [s[|s| - 1]];
    }
  }

  ghost predicate Written(value: string, boot: string, n: nat) {
    LowerHex(boot, 32) && 1 <= n <= 18_446_744_073_709_551_615 && value == boot + ['-'] + Decimal.Print(n)
  }

  lemma AdmittedIsWritten(value: string)
    requires DaemonEventId(value)
    ensures Written(value, value[..32], Decimal.Value(value[33..]))
  {
    EventIdReadersAgree(value);
    assert value[33..][0] == value[33];
    PrintOfValue(value[33..]);
    assert value == value[..32] + ['-'] + value[33..];
  }

  /** Both readers admit an event identifier exactly when a daemon prints it for some token and some 64-bit number from one. */
  lemma EventIdExactly(value: string)
    ensures DaemonEventId(value) <==> exists boot, n :: Written(value, boot, n)
    ensures ApiEventId(value) <==> exists boot, n :: Written(value, boot, n)
  {
    EventIdReadersAgree(value);
    if DaemonEventId(value) {
      AdmittedIsWritten(value);
    }
    if boot, n :| Written(value, boot, n) {
      HexAvoidsDash(boot);
      Decimal.SplitOnceJoined(boot, '-', Decimal.Print(n));
      Decimal.PrintHasNoLeadingZero(n);
      Decimal.ValueOfPrint(n);
      Decimal.ParsePrinted(n, U64_MAX);
    }
  }

  /** Two inventories that a change of one container tells apart. */
  ghost predicate Witnessed(change: Change, previous: Inventory, current: Inventory) {
    WellFormed(previous) && WellFormed(current) && change in Changes(previous, current)
  }

  function Holding(id: string, status: Option<ContainerStatus>): Inventory {
    Inventory(match status { case None => map[] case Some(s) => map[id := s] }, {})
  }

  /** An event is admitted exactly when its identifier is and two inventories exist between which that change happens. */
  lemma EventAdmittedExactly(event: ChangeEvent)
    ensures CoherentEvent(event) <==>
              && (exists boot, n :: Written(event.id, boot, n))
              && exists previous, current :: Witnessed(event.change, previous, current)
  {
    var change := event.change;
    EventIdExactly(event.id);
    if ContainerId(change.containerId) && CoherentTransition(change) {
      var previous, current := Holding(change.containerId, change.previous), Holding(change.containerId, change.current);
      ChangesExactly(previous, current, change);
      assert Witnessed(change, previous, current);
    }
    if previous, current :| Witnessed(change, previous, current) {
      ChangesExactly(previous, current, change);
    }
  }
}

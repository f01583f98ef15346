/** parseDeviceId (pkg/source/vmware/client.go:774-805). */
module DeviceId {
  import opened Wrappers
  import opened Text

  datatype Address = Address(bus: int, unit: int)

  /** Where the digits that end the first i characters begin. */
  function DigitsStart(s: string, i: nat): (k: nat)
    requires i <= |s|
    ensures k <= i
    ensures forall j :: k <= j < i ==> IsDigit(s[j])
    ensures k > 0 ==> !IsDigit(s[k - 1])
  {
    if i == 0 || !IsDigit(s[i - 1]) then i else DigitsStart(s, i - 1)
  }

  function AddressOf(deviceId: string): Option<Address> {
    var colon := Split(AfterLast(deviceId, '/'), ':');
    if |colon| != 2 then None
    else
      var unit := ParseInt(colon[1], 32);
      var k := DigitsStart(colon[0], |colon[0]|);
      var bus := ParseInt(colon[0][k..], 32);
      if unit.ok && k < |colon[0]| && bus.ok then Some(Address(bus.value, unit.value)) else None
  }

  method ParseDeviceId(deviceId: string) returns (r: Option<Address>)
    ensures r == AddressOf(deviceId)
  {
    var colon := Split(AfterLast(deviceId, '/'), ':');
    if |colon| != 2 {
      return None;
    }
    var unit := ParseInt(colon[1], 32);
    if !unit.ok {
      return None;
    }
    var i := |colon[0]| - 1;
    while i >= 0 && '0' <= colon[0][i] <= '9'
      invariant -1 <= i < |colon[0]|
      invariant DigitsStart(colon[0], |colon[0]|) == DigitsStart(colon[0], i + 1)
    {
      i := i - 1;
    }
    if i == |colon[0]| - 1 {
      return None;
    }
    var bus := ParseInt(colon[0][i + 1..], 32);
    if !bus.ok {
      return None;
    }
    return Some(Address(bus.value, unit.value));
  }

  /** The form the comment on parseDeviceId describes. */
  function Print(path: string, controller: string, bus: nat, unit: nat): string {
    path + (controller + Decimal(bus) + ":" + Decimal(unit))
  }

  lemma {:induction false} StartOfDigits(head: string, digits: string, i: nat)
    requires AllDigits(digits) && (head == "" || !IsDigit(head[|head| - 1]))
    requires |head| <= i <= |head| + |digits|
    ensures DigitsStart(head + digits, i) == |head|
  {
    if i > |head| {
      assert IsDigit((head + digits)[i - 1]);
      StartOfDigits(head, digits, i - 1);
    }
  }

  lemma PrintedParts(path: string, controller: string, bus: nat, unit: nat)
    requires path == "" || path[|path| - 1] == '/'
    requires NoChar(controller, '/') && NoChar(controller, ':')
    requires controller == "" || !IsDigit(controller[|controller| - 1])
    ensures var head := controller + Decimal(bus);
            && Split(AfterLast(Print(path, controller, bus, unit), '/'), ':') == [head, Decimal(unit)]
            && DigitsStart(head, |head|) == |controller| && head[|controller|..] == Decimal(bus)
  {
    var b, u := Decimal(bus), Decimal(unit);
    var head := controller + b;
    var last := controller + b + ":" + u;
    assert last == head + [':'] + u;
    AfterLastOfPath(path, last, '/');
    SplitOnce(head, u, ':');
    SplitNone(u, ':');
    StartOfDigits(controller, b, |head|);
  }

  /** Parsing inverts printing for every path, every controller name without '/', ':' or a final digit, and
      every bus and unit; outside the int32 range the parser answers nothing instead. */
  lemma ParsePrinted(path: string, controller: string, bus: nat, unit: nat)
    requires path == "" || path[|path| - 1] == '/'
    requires NoChar(controller, '/') && NoChar(controller, ':')
    requires controller == "" || !IsDigit(controller[|controller| - 1])
    ensures AddressOf(Print(path, controller, bus, unit)) ==
            if bus < INT32_LIMIT && unit < INT32_LIMIT then Some(Address(bus, unit)) else None
  {
    PrintedParts(path, controller, bus, unit);
    AddressOfParts(Print(path, controller, bus, unit), controller + Decimal(bus), Decimal(unit), |controller|);
    NumberParsed(bus);
    NumberParsed(unit);
  }

  lemma NumberParsed(n: nat)
    ensures ParseInt(Decimal(n), 32) == if n < INT32_LIMIT then Parsed(n, true) else Parsed(INT32_LIMIT - 1, false)
  {
    ParseDecimal(n, 32);
    Pow31();
  }

  lemma AddressOfParts(deviceId: string, head: string, unit: string, k: nat)
    requires Split(AfterLast(deviceId, '/'), ':') == [head, unit] && k == DigitsStart(head, |head|) && k < |head|
    ensures AddressOf(deviceId) ==
            if ParseInt(unit, 32).ok && ParseInt(head[k..], 32).ok
            then Some(Address(ParseInt(head[k..], 32).value, ParseInt(unit, 32).value)) else None
  {
  }

  /** The last path segment is a controller name, its bus digits, one ':' and a unit. */
  ghost predicate Spells(last: string, head: string, digits: string, unit: string, r: Address) {
    && last == head + digits + [':'] + unit
    && digits != "" && AllDigits(digits) && (head == "" || !IsDigit(head[|head| - 1]))
    && ParseInt(digits, 32) == Parsed(r.bus, true) && ParseInt(unit, 32) == Parsed(r.unit, true)
  }

  /** Conversely an answer means: after the last '/' there is exactly one ':', digits stand before it and give
      a bus in [0, 2^31), and the text after it is a unit in int32 range, which may carry a sign. */
  lemma AddressMeans(deviceId: string) returns (head: string, digits: string, unit: string)
    requires AddressOf(deviceId).Some?
    ensures var last, r := AfterLast(deviceId, '/'), AddressOf(deviceId).value;
            && Count(last, ':') == 1 && Spells(last, head, digits, unit, r)
            && 0 <= r.bus < INT32_LIMIT && -INT32_LIMIT <= r.unit < INT32_LIMIT
  {
    var last := AfterLast(deviceId, '/');
    var colon := Split(last, ':');
    SplitCount(last, ':');
    assert last == colon[0] + [':'] + colon[1] by {
      SplitInTwo(last, ':');
    }
    var k := DigitsStart(colon[0], |colon[0]|);
    head, digits, unit := colon[0][..k], colon[0][k..], colon[1];
    assert colon[0] == head + digits;
    AddressBounds(digits, unit);
  }

  lemma AddressBounds(digits: string, unit: string)
    requires digits != "" && AllDigits(digits)
    ensures 0 <= ParseInt(digits, 32).value < INT32_LIMIT && -INT32_LIMIT <= ParseInt(unit, 32).value < INT32_LIMIT
  {
    ParseBound(unit, 32);
    ParseBound(digits, 32);
    Pow31();
    DigitsParseNatural(digits);
  }

  lemma DigitsParseNatural(digits: string)
    requires digits != "" && AllDigits(digits)
    ensures ParseInt(digits, 32).value >= 0
  {
    assert IsDigit(digits[0]);
  }

  /** And every text of that form is answered with what it spells. */
  lemma AddressSpelled(deviceId: string, head: string, digits: string, unit: string, r: Address)
    requires Count(AfterLast(deviceId, '/'), ':') == 1 && Spells(AfterLast(deviceId, '/'), head, digits, unit, r)
    ensures AddressOf(deviceId) == Some(r)
  {
    var whole := head + digits;
    CountConcat(whole + [':'], unit, ':');
    CountConcat(whole, [':'], ':');
    NoCharCount(whole, ':');
    NoCharCount(unit, ':');
    assert Count([':'], ':') == 1;
    SplitOnce(whole, unit, ':');
    SplitNone(unit, ':');
    StartOfDigits(head, digits, |whole|);
    assert whole[|head|..] == digits;
    AddressOfParts(deviceId, whole, unit, |head|);
  }
}

/** The spelling of value bindings and import labels (internal/boundarylog/recording.go).

    A binding is `<label>:<role><slot>`; the label of an import is `import #<n>`. */
module Labels {
  import opened Wrappers

  datatype Role = Arg | Ret

  datatype Binding = Binding(tag: string, role: Role, slot: nat)

  const IMPORT_PREFIX := "import #"
  const MAX_INT: nat := 0x7fff_ffff_ffff_ffff

  predicate IsDigit(c: char) { '0' <= c <= '9' }

  function DigitValue(c: char): nat
    requires IsDigit(c)
  {
    c as int - '0' as int
  }

  /** The decimal rendering of `n`, without leading zeros. */
  function Decimal(n: nat): string {
    var digit := [(n % 10 + '0' as int) as char];
    if n < 10 then digit else Decimal(n / 10) + digit
  }

  /** The value of a non-empty string of decimal digits; leading zeros are accepted. */
  function ParseDigits(s: string): Option<nat> {
    if s == [] || !IsDigit(s[|s| - 1]) then None
    else if |s| == 1 then Some(DigitValue(s[0]))
    else
      match ParseDigits(s[..|s| - 1])
      case None => None
      case Some(high) => Some(10 * high + DigitValue(s[|s| - 1]))
  }

  /** strconv.Atoi followed by the `n < 0` test: a sign is accepted, a negative value is not. */
  function ParseSlot(s: string): Option<nat> {
    var negative := s != [] && s[0] == '-';
    var digits := if s != [] && (s[0] == '-' || s[0] == '+') then s[1..] else s;
    match ParseDigits(digits)
    case None => None
    case Some(n) => if n > MAX_INT || (negative && n > 0) then None else Some(n)
  }

  function LastColon(s: string): (i: int)
    ensures -1 <= i < |s|
    ensures i >= 0 ==> s[i] == ':'
  {
    if s == [] then -1
    else if s[|s| - 1] == ':' then |s| - 1
    else LastColon(s[..|s| - 1])
  }

  function ParseBindingName(name: string): Option<Binding> {
    SplitAt(name, LastColon(name))
  }

  function SplitAt(name: string, i: int): Option<Binding>
    requires -1 <= i < |name|
  {
    if i < 0 || i == |name| - 1 then None
    else
      var suffix := name[i + 1..];
      if "arg" <= suffix then WithSlot(name[..i], Arg, suffix[3..])
      else if "ret" <= suffix then WithSlot(name[..i], Ret, suffix[3..])
      else None
  }

  function WithSlot(tag: string, role: Role, slot: string): Option<Binding> {
    match ParseSlot(slot)
    case None => None
    case Some(n) => if tag == "" then None else Some(Binding(tag, role, n))
  }

  function ImportLabel(index: uint32): string { IMPORT_PREFIX + Decimal(index) }

  function ParseImportLabel(tag: string): Option<uint32> {
    if !(IMPORT_PREFIX <= tag) then None
    else
      match ParseDigits(tag[|IMPORT_PREFIX|..])
      case None => None
      case Some(n) => if n < 0x1_0000_0000 then Some(n) else None
  }

  /** The producer's rendering of one binding name. */
  function BindingName(tag: string, role: Role, slot: nat): string {
    tag + ":" + RoleText(role) + Decimal(slot)
  }

  function RoleText(role: Role): string { if role.Arg? then "arg" else "ret" }

  // ---- what the producer writes, the reader reads back ------------------

  lemma {:induction false} DecimalRoundTrip(n: nat)
    ensures ParseDigits(Decimal(n)) == Some(n)
    ensures forall i :: 0 <= i < |Decimal(n)| ==> IsDigit(Decimal(n)[i])
    ensures Decimal(n) != []
  {
    if n >= 10 {
      DecimalRoundTrip(n / 10);
      var s := Decimal(n);
      assert s[..|s| - 1] == Decimal(n / 10);
    }
  }

  lemma {:induction false} LastColonAppend(s: string, t: string)
    requires forall i :: 0 <= i < |t| ==> t[i] != ':'
    ensures LastColon(s + ":" + t) == |s|
  {
    var w := s + ":" + t;
    if t == [] {
      assert w[|w| - 1] == ':';
    } else {
      assert w[|w| - 1] == t[|t| - 1];
      assert w[..|w| - 1] == s + ":" + t[..|t| - 1];
      LastColonAppend(s, t[..|t| - 1]);
    }
  }

  lemma {:induction false} SlotRoundTrip(slot: nat)
    requires slot <= MAX_INT
    ensures ParseSlot(Decimal(slot)) == Some(slot)
  {
    DecimalRoundTrip(slot);
    assert IsDigit(Decimal(slot)[0]);
  }

  lemma {:induction false} SplitBinding(tag: string, role: Role, d: string)
    ensures SplitAt(tag + ":" + (RoleText(role) + d), |tag|) == WithSlot(tag, role, d)
  {
    var suffix := RoleText(role) + d;
    var name := tag + ":" + suffix;
    assert name[|tag| + 1..] == suffix;
    assert name[..|tag|] == tag;
    assert suffix[3..] == d;
    assert suffix[0] == RoleText(role)[0];
  }

  lemma {:induction false} BindingNameRoundTrip(tag: string, role: Role, slot: nat)
    requires tag != "" && slot <= MAX_INT
    ensures ParseBindingName(BindingName(tag, role, slot)) == Some(Binding(tag, role, slot))
  {
    DecimalRoundTrip(slot);
    SlotRoundTrip(slot);
    var d := Decimal(slot);
    forall i | 0 <= i < |d| ensures d[i] != ':' { assert IsDigit(d[i]); }
    var suffix := RoleText(role) + d;
    assert BindingName(tag, role, slot) == tag + ":" + suffix;
    LastColonAppend(tag, suffix);
    SplitBinding(tag, role, d);
  }

  lemma {:induction false} ImportLabelRoundTrip(index: uint32)
    ensures ParseImportLabel(ImportLabel(index)) == Some(index)
    ensures ImportLabel(index) != ""
  {
    DecimalRoundTrip(index);
    assert ImportLabel(index)[|IMPORT_PREFIX|..] == Decimal(index);
  }

  /** How they look. */
  lemma {:induction false} Spellings()
    ensures ImportLabel(1234) == "import #1234"
    ensures BindingName("run", Arg, 0) == "run:arg0" && BindingName("import #7", Ret, 12) == "import #7:ret12"
  {
    assert Decimal(1) == "1" && Decimal(12) == "12" && Decimal(123) == "123" && Decimal(1234) == "1234";
  }
}

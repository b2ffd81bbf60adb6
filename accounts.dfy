/** Offline accounts: the three fields, their setters, the dictionary an
    account is sent as, and that dictionary written as JSON the way
    `json.dumps` writes it (ASCII only, `", "` and `": "` separators). */
module Accounts {
  import opened Wire

  /** A JSON scalar an account field holds: a string, or the integer a fresh
      account draws as its unique id. */
  datatype Json = JStr(s: string) | JInt(n: int)

  /** An account's state: `username`, `unique_id` and `_display_name`. */
  datatype Account = Account(username: Json, uniqueId: Json, displayName: string)

  /** `account_type` of an offline account. */
  const AccountType: string := "offline"

  /** The class-level default display name. */
  const DefaultName: string := "Player"

  /** A dictionary, in insertion order. */
  type Dict = seq<(string, Json)>

  predicate IsPrintable(s: string)
  {
    forall i :: 0 <= i < |s| ==> ' ' <= s[i] <= '~'
  }

  function DigitsOf(n: nat): (r: string)
    ensures r != [] && forall i :: 0 <= i < |r| ==> '0' <= r[i] <= '9'
  {
    if n < 10 then [('0' as int + n) as char] else DigitsOf(n / 10) + [('0' as int + n % 10) as char]
  }

  /** `str(n)` of an integer. */
  function Decimal(n: int): (r: string)
    ensures r != [] && (r[0] == '-') == (n < 0)
  {
    if n < 0 then "-" + DigitsOf(-n) else DigitsOf(n)
  }

  /** `str(x)`. */
  function Str(j: Json): string
  {
    match j
    case JStr(s) => s
    case JInt(n) => Decimal(n)
  }

  function HexDigit(n: nat): (r: char)
    requires n < 16
    ensures ' ' <= r <= '~'
  {
    if n < 10 then ('0' as int + n) as char else ('a' as int + n - 10) as char
  }

  /** The last `k` hexadecimal digits of `n`, the most significant first. */
  function HexDigits(n: nat, k: nat): (r: string)
    ensures |r| == k
  {
    if k == 0 then [] else HexDigits(n / 16, k - 1) + [HexDigit(n % 16)]
  }

  /** `'{0:04x}'.format(n)`. */
  function Hex4(n: nat): (r: string)
    requires n < 0x1_0000
    ensures |r| == 4
  {
    HexDigits(n, 4)
  }

  /** One character as `json.dumps` writes it inside quotes with
      `ensure_ascii`: printable ASCII stands for itself except `"` and `\`,
      five controls have short escapes, anything else is `\uXXXX`, as a
      surrogate pair past U+FFFF. */
  function EscapeChar(c: char): (r: string)
    ensures r != [] && (r[0] == '\\' <==> !(' ' <= c <= '~' && c != '"' && c != '\\'))
  {
    if c == '"' then "\\\""
    else if c == '\\' then "\\\\"
    else if c == '\n' then "\\n"
    else if c == '\r' then "\\r"
    else if c == '\t' then "\\t"
    else if c == '\U{8}' then "\\b"
    else if c == '\U{C}' then "\\f"
    else if ' ' <= c <= '~' then [c]
    else if (c as int) < 0x1_0000 then "\\u" + Hex4(c as int)
    else
      var n := c as int - 0x1_0000;
      "\\u" + Hex4(0xD800 + n / 0x400) + "\\u" + Hex4(0xDC00 + n % 0x400)
  }

  /** Every character of a string in its escaped form. */
  function Escape(s: string): string
  {
    if s == [] then [] else EscapeChar(s[0]) + Escape(s[1..])
  }

  function Quote(s: string): string
  {
    "\"" + Escape(s) + "\""
  }

  function DumpValue(j: Json): string
  {
    match j
    case JStr(s) => Quote(s)
    case JInt(n) => Decimal(n)
  }

  /** One member, a key and its value, as `json.dumps` writes it. */
  function Item(k: string, v: Json): string
  {
    Quote(k) + ": " + DumpValue(v)
  }

  /** The items of a dictionary, separated by `", "`. */
  function DumpItems(d: Dict): string
    decreases |d|, 1
  {
    if d == [] then "" else ItemsFrom(d)
  }

  /** The items of a dictionary that has some: the first, then a comma, a
      space and the others when more follow. */
  function ItemsFrom(d: Dict): string
    requires d != []
    decreases |d|, 0
  {
    var item := Item(d[0].0, d[0].1);
    if |d| == 1 then item else item + ", " + DumpItems(d[1..])
  }

  /** `json.dumps(d)`. */
  function Dumps(d: Dict): string
  {
    "{" + DumpItems(d) + "}"
  }

  lemma PrintableConcat(a: string, b: string)
    requires IsPrintable(a) && IsPrintable(b)
    ensures IsPrintable(a + b)
  {
    assert forall i :: |a| <= i < |a + b| ==> (a + b)[i] == b[i - |a|];
  }

  lemma DecimalPrintable(n: int)
    ensures IsPrintable(Decimal(n))
  {
    if n < 0 {
      PrintableConcat("-", DigitsOf(-n));
    }
  }

  lemma {:induction false} HexDigitsPrintable(n: nat, k: nat)
    ensures IsPrintable(HexDigits(n, k))
  {
    if k > 0 {
      HexDigitsPrintable(n / 16, k - 1);
      PrintableConcat(HexDigits(n / 16, k - 1), [HexDigit(n % 16)]);
    }
  }

  /** Every escape is printable ASCII. */
  lemma EscapeCharPrintable(c: char)
    ensures IsPrintable(EscapeChar(c))
  {
    if ' ' <= c <= '~' || c == '\n' || c == '\r' || c == '\t' || c == '\U{8}' || c == '\U{C}' {
    } else if (c as int) < 0x1_0000 {
      HexDigitsPrintable(c as int, 4);
      PrintableConcat("\\u", Hex4(c as int));
    } else {
      var n := c as int - 0x1_0000;
      HexDigitsPrintable(0xD800 + n / 0x400, 4);
      HexDigitsPrintable(0xDC00 + n % 0x400, 4);
      PrintableConcat("\\u", Hex4(0xD800 + n / 0x400));
      PrintableConcat("\\u" + Hex4(0xD800 + n / 0x400), "\\u");
      PrintableConcat("\\u" + Hex4(0xD800 + n / 0x400) + "\\u", Hex4(0xDC00 + n % 0x400));
    }
  }

  lemma {:induction false} EscapePrintable(s: string)
    ensures IsPrintable(Escape(s))
  {
    if s != [] {
      EscapePrintable(s[1..]);
      EscapeCharPrintable(s[0]);
      PrintableConcat(EscapeChar(s[0]), Escape(s[1..]));
    }
  }

  lemma ValuePrintable(j: Json)
    ensures IsPrintable(DumpValue(j))
  {
    if j.JInt? {
      DecimalPrintable(j.n);
    } else {
      EscapePrintable(j.s);
      PrintableConcat("\"", Escape(j.s));
      PrintableConcat("\"" + Escape(j.s), "\"");
    }
  }

  lemma {:induction false} ItemsPrintable(d: Dict)
    ensures IsPrintable(DumpItems(d))
  {
    if d != [] {
      var q := Quote(d[0].0);
      ValuePrintable(JStr(d[0].0));
      ValuePrintable(d[0].1);
      PrintableConcat(q, ": ");
      PrintableConcat(q + ": ", DumpValue(d[0].1));
      if |d| > 1 {
        ItemsPrintable(d[1..]);
        var item := q + ": " + DumpValue(d[0].1);
        PrintableConcat(item, ", ");
        PrintableConcat(item + ", ", DumpItems(d[1..]));
      }
    }
  }

  /** `json.dumps` writes only printable ASCII, and never nothing: a document
      always crosses the wire through the one-byte-per-character path of the
      `String` codec. */
  lemma DumpsPrintable(d: Dict)
    ensures IsPrintable(Dumps(d)) && |Dumps(d)| >= 2
  {
    ItemsPrintable(d);
    PrintableConcat("{", DumpItems(d));
    PrintableConcat("{" + DumpItems(d), "}");
  }

  /** `get_dict`. */
  function GetDict(a: Account): (r: Dict)
    ensures |r| == 2 && r[0].0 == "username" && r[1].0 == "uniqueId"
  {
    [("username", a.username), ("uniqueId", a.uniqueId)]
  }

  /** The JSON document an account is sent as. */
  function Document(a: Account): string
  {
    Dumps(GetDict(a))
  }

  /** `data[key]`: the value of the first entry under `key`, or `KeyError`. */
  function Get(d: Dict, key: string): (r: Result<Json>)
    ensures r.Err? ==> r.error == KeyError
    ensures r.Err? <==> forall i :: 0 <= i < |d| ==> d[i].0 != key
    ensures r.Ok? ==> exists i :: 0 <= i < |d| && d[i] == (key, r.value) &&
                                  forall j :: 0 <= j < i ==> d[j].0 != key
  {
    if d == [] then Err(KeyError) else if d[0].0 == key then Ok(d[0].1) else Get(d[1..], key)
  }

  /** `from_dict`: the two keys into the constructor; the display name is the
      class default. */
  function FromDict(d: Dict): (r: Result<Account>)
    ensures r.Ok? ==> r.value.displayName == DefaultName
    ensures Get(d, "username").Err? || Get(d, "uniqueId").Err? ==> r == Err(KeyError)
  {
    match Get(d, "username")
    case Err(e) => Err(e)
    case Ok(u) =>
      match Get(d, "uniqueId")
      case Err(e) => Err(e)
      case Ok(id) => Ok(Account(u, id, DefaultName))
  }

  /** `from_dict(get_dict(a))` keeps the username and unique id; the display
      name falls back to "Player". */
  lemma FromGetDict(a: Account)
    ensures FromDict(GetDict(a)) == Ok(a.(displayName := DefaultName))
  {
    assert "username" != "uniqueId" by { assert "username"[1] != "uniqueId"[1]; }
    var d := GetDict(a);
    assert d[1..] == [("uniqueId", a.uniqueId)];
    assert Get(d, "username") == Ok(a.username);
    assert Get(d[1..], "uniqueId") == Ok(a.uniqueId);
    assert Get(d, "uniqueId") == Ok(a.uniqueId);
  }

  /** `__str__`: the display name and, in parentheses, the unique id. */
  function Describe(a: Account): (r: string)
    ensures |r| == |a.displayName| + |Str(a.uniqueId)| + 3
    ensures r[..|a.displayName|] == a.displayName && r[|a.displayName|..|a.displayName| + 2] == " ("
    ensures r[|a.displayName| + 2..|r| - 1] == Str(a.uniqueId) && r[|r| - 1] == ')'
  {
    a.displayName + " (" + Str(a.uniqueId) + ")"
  }

  /** The username an offline account derives from a name. */
  function Prefixed(name: string): (r: Json)
    ensures r == JStr("offline:" + name)
    ensures r.s[..8] == "offline:" && r.s[8..] == name
  {
    assert AccountType + ":" == "offline:";
    JStr(AccountType + ":" + name)
  }

  /** `set_username`. */
  function WithUsername(a: Account, name: string): (r: Account)
    ensures r.username == JStr("offline:" + name)
    ensures r.uniqueId == a.uniqueId && r.displayName == a.displayName
  {
    a.(username := Prefixed(name))
  }

  /** `set_unique_id`: the account type, a colon and `str(u)`. */
  function WithUniqueId(a: Account, u: Json): (r: Account)
    ensures r.uniqueId == JStr("offline:" + Str(u))
    ensures r.username == a.username && r.displayName == a.displayName
  {
    a.(uniqueId := Prefixed(Str(u)))
  }

  /** `set_display_name`: `None` stands for "Player"; the username follows the
      display name. */
  function WithDisplayName(a: Account, name: Option<string>): (r: Account)
    ensures r.displayName == if name.None? then "Player" else name.value
    ensures r.username == JStr("offline:" + r.displayName) && r.uniqueId == a.uniqueId
  {
    var n := if name.None? then DefaultName else name.value;
    WithUsername(a.(displayName := n), n)
  }

  /** `OfflineAccount(username, unique_id)`: the username as given, not
      prefixed, and the default display name. */
  function Fresh(username: Json, uniqueId: Json): (r: Account)
    ensures r.displayName == "Player"
  {
    Account(username, uniqueId, DefaultName)
  }

  /** `OfflineAccount(other)`: the other account's unique id and display name,
      and the username derived from that display name. */
  function Copied(other: Account): (r: Account)
    ensures r.uniqueId == other.uniqueId && r.displayName == other.displayName
    ensures r.username == JStr("offline:" + other.displayName)
  {
    WithDisplayName(Fresh(other.username, other.uniqueId), Some(other.displayName))
  }

  /** `with_name(name)`; `uniqueId` stands for the random id the constructor
      draws. */
  function Named(name: string, uniqueId: Json): (r: Account)
    ensures r.displayName == name && r.username == JStr("offline:" + name) && r.uniqueId == uniqueId
  {
    WithDisplayName(Fresh(Prefixed(name), uniqueId), Some(name))
  }

  /** The username is the account type and the display name. */
  predicate Consistent(a: Account)
  {
    a.username == Prefixed(a.displayName)
  }

  /** Naming, copying and setting the display name give a consistent account;
      setting the unique id keeps it consistent; `set_username` and `from_dict`
      may break it. */
  lemma ConsistentAccounts(a: Account, name: string, n: Option<string>, u: Json)
    ensures Consistent(Named(name, u)) && Consistent(Copied(a)) && Consistent(WithDisplayName(a, n))
    ensures Consistent(a) ==> Consistent(WithUniqueId(a, u))
    ensures name != a.displayName ==> !Consistent(WithUsername(a, name))
    ensures !Consistent(Named(name, u).(displayName := DefaultName)) <==> name != DefaultName
  {
    if name != a.displayName {
      assert ("offline:" + name)[8..] == name;
      assert ("offline:" + a.displayName)[8..] == a.displayName;
    }
    if name != DefaultName {
      assert ("offline:" + name)[8..] == name;
      assert ("offline:" + DefaultName)[8..] == DefaultName;
    }
  }

  /** Copying an account changes it exactly when its username is not the
      account type and its display name; the copy of a copy is the copy. */
  lemma CopiedFixed(a: Account)
    ensures Consistent(a) <==> Copied(a) == a
    ensures Copied(Copied(a)) == Copied(a)
  {
  }

  /** `OfflineAccount(OfflineAccount("bob", 5))` sends the username
      "offline:Player", not "bob": the copy derives the username from the
      default display name. */
  lemma CopiedFresh()
    ensures Copied(Fresh(JStr("bob"), JInt(5))) == Account(JStr("offline:Player"), JInt(5), "Player")
    ensures GetDict(Copied(Fresh(JStr("bob"), JInt(5)))) == [("username", JStr("offline:Player")), ("uniqueId", JInt(5))]
  {
  }

  /** An account object. */
  class OfflineAccount {
    var username: Json
    var uniqueId: Json
    var displayName: string

    function Value(): Account
      reads this
    {
      Account(username, uniqueId, displayName)
    }

    /** `OfflineAccount(username, unique_id)`. */
    constructor (username: Json, uniqueId: Json)
      ensures Value() == Fresh(username, uniqueId)
    {
      this.username := username;
      this.uniqueId := uniqueId;
      this.displayName := DefaultName;
    }

    /** `OfflineAccount(other)`. */
    constructor Copy(other: OfflineAccount)
      ensures Value() == Copied(other.Value())
    {
      username := other.username;
      uniqueId := other.uniqueId;
      displayName := DefaultName;
      new;
      SetDisplayName(Some(other.displayName));
    }

    /** `OfflineAccount.with_name(name)`. */
    static method WithName(name: string, uniqueId: Json) returns (acc: OfflineAccount)
      ensures fresh(acc) && acc.Value() == Named(name, uniqueId)
    {
      acc := new OfflineAccount(Prefixed(name), uniqueId);
      acc.SetDisplayName(Some(name));
    }

    method SetUsername(name: string)
      modifies this
      ensures Value() == WithUsername(old(Value()), name)
    {
      username := Prefixed(name);
    }

    method SetUniqueId(u: Json)
      modifies this
      ensures Value() == WithUniqueId(old(Value()), u)
    {
      uniqueId := Prefixed(Str(u));
    }

    method SetDisplayName(name: Option<string>)
      modifies this
      ensures Value() == WithDisplayName(old(Value()), name)
    {
      var n := if name.None? then DefaultName else name.value;
      displayName := n;
      SetUsername(n);
    }
  }
}

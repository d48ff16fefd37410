// Shared vocabulary: optional values, decimal numerals and POSIX paths.

module Prelude {
  /** An optional value, usable with `:-`. */
  datatype Option<+T> = None | Some(value: T) {
    predicate IsFailure() {
      None?
    }

    function PropagateFailure<U>(): Option<U>
      requires None?
    {
      None
    }

    function Extract(): T
      requires Some?
    {
      value
    }
  }

  predicate Distinct<T(==)>(s: seq<T>) {
    forall i, j :: 0 <= i < j < |s| ==> s[i] != s[j]
  }
}

/** Decimal rendering of natural numbers, as Python's `str` and `:04d` produce it. */
module Numerals {
  function Digit(d: nat): (c: char)
    requires d < 10
    ensures '0' <= c <= '9'
  {
    '0' + d as char
  }

  function DecimalText(n: nat): (s: string)
    ensures |s| > 0
    ensures forall i :: 0 <= i < |s| ==> '0' <= s[i] <= '9'
  {
    if n < 10 then [Digit(n)] else DecimalText(n / 10) + [Digit(n % 10)]
  }

  function DecimalValue(s: string): nat
    requires forall i :: 0 <= i < |s| ==> '0' <= s[i] <= '9'
  {
    if s == [] then 0
    else 10 * DecimalValue(s[..|s| - 1]) + (s[|s| - 1] as int - '0' as int)
  }

  lemma {:induction false} DecimalRoundTrip(n: nat)
    ensures DecimalValue(DecimalText(n)) == n
  {
    var s := DecimalText(n);
    if n < 10 {
      assert s[..0] == [];
    } else {
      DecimalRoundTrip(n / 10);
      assert s[..|s| - 1] == DecimalText(n / 10);
    }
  }

  lemma DecimalTextInjective(m: nat, n: nat)
    requires DecimalText(m) == DecimalText(n)
    ensures m == n
  {
    DecimalRoundTrip(m);
    DecimalRoundTrip(n);
  }

  function Padded(width: nat, s: string): string
    decreases if |s| < width then width - |s| else 0
  {
    if |s| < width then Padded(width, "0" + s) else s
  }

  /** Python's `f"{n:04d}"`. */
  function FourDigits(n: nat): string {
    Padded(4, DecimalText(n))
  }
}

/** Whitespace as Python's `str` methods see it. */
module Texts {
  predicate IsBlank(s: string) {
    forall i :: 0 <= i < |s| ==> IsSpace(s[i])
  }

  /** The characters that Python's `str.strip` removes. */
  predicate IsSpace(c: char) {
    || '\U{9}' <= c <= '\U{D}' || '\U{1C}' <= c <= '\U{20}' || c == '\U{85}' || c == '\U{A0}'
    || c == '\U{1680}' || '\U{2000}' <= c <= '\U{200A}' || c == '\U{2028}' || c == '\U{2029}'
    || c == '\U{202F}' || c == '\U{205F}' || c == '\U{3000}'
  }

  function StripLeft(s: string): string {
    if s != "" && IsSpace(s[0]) then StripLeft(s[1..]) else s
  }

  function StripRight(s: string): string {
    if s != "" && IsSpace(s[|s| - 1]) then StripRight(s[..|s| - 1]) else s
  }

  function Strip(s: string): string {
    StripRight(StripLeft(s))
  }

  /** The order of texts by code points, which is also the order of their UTF-8 encodings. */
  predicate TextAtMost(a: string, b: string) {
    a == "" || (b != "" && (a[0] < b[0] || (a[0] == b[0] && TextAtMost(a[1..], b[1..]))))
  }
}

/** Absolute and relative POSIX paths as `pathlib` keeps them: an anchor and its components. */
module Paths {
  datatype Path = Path(anchor: string, parts: seq<string>)

  predicate IsComponent(s: string) {
    s != "" && s != "." && '/' !in s
  }

  predicate IsPath(p: Path) {
    p.anchor in ["", "/", "//"] && forall i :: 0 <= i < |p.parts| ==> IsComponent(p.parts[i])
  }

  predicate IsAbsolute(p: Path) {
    p.anchor != ""
  }

  function Join(separator: string, items: seq<string>): string {
    if items == [] then ""
    else if |items| == 1 then items[0]
    else items[0] + separator + Join(separator, items[1..])
  }

  function Text(p: Path): string {
    if p.anchor == "" && p.parts == [] then "." else p.anchor + Join("/", p.parts)
  }

  /** The components of a text, dropping empty ones and single dots. */
  function Components(text: string): seq<string>
    decreases |text|
  {
    if text == "" then []
    else
      var n := Until(text, '/');
      var rest := Components(if n < |text| then text[n + 1..] else "");
      if IsComponent(text[..n]) then [text[..n]] + rest else rest
  }

  function Until(text: string, stop: char): (n: nat)
    ensures n <= |text|
    ensures stop !in text[..n]
    ensures n < |text| ==> text[n] == stop
  {
    if text == "" || text[0] == stop then 0
    else
      var m := Until(text[1..], stop);
      assert text[..m + 1] == [text[0]] + text[1..][..m];
      m + 1
  }

  function Anchor(text: string): string {
    if text == "" || text[0] != '/' then ""
    else if |text| >= 2 && text[1] == '/' && !(|text| >= 3 && text[2] == '/') then "//"
    else "/"
  }

  function FromText(text: string): Path {
    Path(Anchor(text), Components(text))
  }

  predicate IsRelativeTo(p: Path, root: Path) {
    p.anchor == root.anchor && |root.parts| <= |p.parts| && p.parts[..|root.parts|] == root.parts
  }

  function Child(p: Path, name: string): Path {
    p.(parts := p.parts + [name])
  }

  lemma UntilStops(text: string, stop: char, n: nat)
    requires n <= |text| && stop !in text[..n] && (n < |text| ==> text[n] == stop)
    ensures Until(text, stop) == n
  {
    if n > 0 {
      assert text[..n] == [text[0]] + text[1..][..n - 1];
      UntilStops(text[1..], stop, n - 1);
    }
  }

  lemma ComponentsCons(head: string, rest: string)
    requires IsComponent(head)
    ensures Components(head + "/" + rest) == [head] + Components(rest)
    ensures Components(head) == [head]
  {
    var text := head + "/" + rest;
    assert text[..|head|] == head && text[|head| + 1..] == rest;
    UntilStops(text, '/', |head|);
    assert head[..|head|] == head;
    UntilStops(head, '/', |head|);
  }

  lemma ComponentsSkipSlash(rest: string)
    ensures Components("/" + rest) == Components(rest)
  {
    var text := "/" + rest;
    assert text[..0] == "" && text[1..] == rest;
    UntilStops(text, '/', 0);
  }

  lemma {:induction false} ComponentsOfJoin(parts: seq<string>)
    requires forall i :: 0 <= i < |parts| ==> IsComponent(parts[i])
    ensures Components(Join("/", parts)) == parts
    ensures parts != [] ==> Join("/", parts) != "" && Join("/", parts)[0] != '/'
  {
    if |parts| == 1 {
      ComponentsCons(parts[0], "");
      assert parts == [parts[0]];
    } else if |parts| > 1 {
      ComponentsOfJoin(parts[1..]);
      ComponentsCons(parts[0], Join("/", parts[1..]));
      assert parts == [parts[0]] + parts[1..];
    }
  }

  /** Rendering an absolute path and reading it back gives the same path. */
  lemma TextRoundTrip(p: Path)
    requires IsPath(p) && IsAbsolute(p)
    ensures FromText(Text(p)) == p
  {
    ComponentsOfJoin(p.parts);
    var body := Join("/", p.parts);
    ComponentsSkipSlash(body);
    if p.anchor == "//" {
      ComponentsSkipSlash("/" + body);
      assert "//" + body == "/" + ("/" + body);
    }
  }
}

/** Decoded JSON. An object is its member list in key order, so equal objects are equal values. */
module JsonValues {
  datatype Json =
    | JNull
    | JBool(flag: bool)
    | JInt(number: int)
    | JText(text: string)
    | JList(items: seq<Json>)
    | JDict(members: Members)

  datatype Members = End | Member(name: string, value: Json, rest: Members)

  /** Python's `dict.get(name, default)`: the default only where there is no such member. */
  function GetOr(v: Json, name: string, default: Json): Json {
    if v.JDict? && Has(v.members, name) then Find(v.members, name) else default
  }

  predicate Has(m: Members, name: string) {
    m.Member? && (m.name == name || Has(m.rest, name))
  }

  /** Python's `dict.get(name)` on a decoded object: JSON null where there is no such member. */
  function Get(v: Json, name: string): Json {
    if v.JDict? then Find(v.members, name) else JNull
  }

  function Find(m: Members, name: string): Json {
    match m
    case End => JNull
    case Member(n, value, rest) => if n == name then value else Find(rest, name)
  }
}

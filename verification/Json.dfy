/** What `JSON.stringify` prints, and how its quotes can be told apart from the text around it. */
module Json {

  /** The characters a number is printed with. */
  type Numeral = s: string | s != "" && forall c :: c in s ==> IsNumeric(c) witness "0"

  predicate IsNumeric(c: char) {
    '0' <= c <= '9' || c == '+' || c == '-' || c == '.' || c == 'e'
  }

  datatype Value =
    | Null
    | Bool(b: bool)
    | Number(text: Numeral)
    | Str(s: string)
    | Array(items: Items)
    | Object(members: Members)

  datatype Items = NoItem | Item(head: Value, tail: Items)

  datatype Members = NoMember | Member(key: string, value: Value, rest: Members)

  function Hex(n: nat): char
    requires n < 16
  {
    "0123456789abcdef"[n]
  }

  function Escape(c: char): string {
    if c == '"' then "\\\""
    else if c == '\\' then "\\\\"
    else if c == '\U{0008}' then "\\b"
    else if c == '\U{000C}' then "\\f"
    else if c == '\n' then "\\n"
    else if c == '\r' then "\\r"
    else if c == '\t' then "\\t"
    else if c < ' ' then "\\u00" + [Hex(c as nat / 16), Hex(c as nat % 16)]
    else [c]
  }

  function EscapeAll(s: string): string {
    if s == "" then "" else Escape(s[0]) + EscapeAll(s[1..])
  }

  function Quoted(s: string): string {
    "\"" + EscapeAll(s) + "\""
  }

  function Stringify(v: Value): string {
    match v
    case Null => "null"
    case Bool(b) => if b then "true" else "false"
    case Number(text) => text
    case Str(s) => Quoted(s)
    case Array(items) => "[" + StringifyItems(items) + "]"
    case Object(members) => "{" + StringifyMembers(members) + "}"
  }

  /** Values with commas in between. */
  function StringifyItems(items: Items): string
    decreases items, 0
  {
    match items
    case NoItem => ""
    case Item(head, tail) => Stringify(head) + ItemsAfter(tail)
  }

  function ItemsAfter(items: Items): string
    decreases items, 1
  {
    if items.NoItem? then "" else "," + StringifyItems(items)
  }

  function StringifyMembers(members: Members): string
    decreases members, 0
  {
    match members
    case NoMember => ""
    case Member(key, value, rest) => Quoted(key) + (":" + (Stringify(value) + MembersAfter(rest)))
  }

  function MembersAfter(members: Members): string
    decreases members, 1
  {
    if members.NoMember? then "" else "," + StringifyMembers(members)
  }

  // ----- telling the inside of a string literal from its outside -----

  datatype Mode = Outside | Inside | Escaped | Broken

  /** A backslash or a bar outside a string literal breaks a text. */
  function Next(m: Mode, c: char): Mode {
    match m
    case Outside => if c == '"' then Inside else if c == '\\' || c == '|' then Broken else Outside
    case Inside => if c == '"' then Outside else if c == '\\' then Escaped else Inside
    case Escaped => Inside
    case Broken => Broken
  }

  function Scan(m: Mode, s: string): Mode
    decreases |s|
  {
    if s == "" then m else Scan(Next(m, s[0]), s[1..])
  }

  /** Every string literal is closed, and no bar is outside of one. */
  predicate Balanced(s: string) {
    Scan(Outside, s) == Outside
  }

  lemma {:induction false} ScanConcat(m: Mode, s: string, t: string)
    ensures Scan(m, s + t) == Scan(Scan(m, s), t)
    decreases |s|
  {
    if s == "" {
      assert s + t == t;
    } else {
      ScanConcat(Next(m, s[0]), s[1..], t);
      assert (s + t)[1..] == s[1..] + t;
    }
  }

  lemma BalancedConcat(s: string, t: string)
    requires Balanced(s) && Balanced(t)
    ensures Balanced(s + t)
  {
    ScanConcat(Outside, s, t);
  }

  lemma {:induction false} PlainIsBalanced(s: string)
    requires forall c :: c in s ==> c !in "\"\\|"
    ensures Balanced(s)
    decreases |s|
  {
    if s != "" {
      assert s[0] in s;
      PlainIsBalanced(s[1..]);
    }
  }

  lemma {:induction false} PlainStaysInside(s: string)
    requires forall c :: c in s ==> c !in "\"\\"
    ensures Scan(Inside, s) == Inside
    decreases |s|
  {
    if s != "" {
      assert s[0] in s;
      PlainStaysInside(s[1..]);
    }
  }

  /** An escape sequence is a backslash, one character, and some that are plain; any other character is plain. */
  lemma EscapeStaysInside(c: char)
    ensures Scan(Inside, Escape(c)) == Inside
  {
    var e := Escape(c);
    if |e| >= 2 {
      assert e[1..][1..] == e[2..];
      assert Scan(Escaped, e[1..]) == Scan(Inside, e[2..]);
      PlainStaysInside(e[2..]);
    } else {
      PlainStaysInside(e);
    }
  }

  lemma {:induction false} EscapedStaysInside(s: string)
    ensures Scan(Inside, EscapeAll(s)) == Inside
  {
    if s != "" {
      EscapeStaysInside(s[0]);
      EscapedStaysInside(s[1..]);
      ScanConcat(Inside, Escape(s[0]), EscapeAll(s[1..]));
    }
  }

  lemma QuotedIsBalanced(s: string)
    ensures Balanced(Quoted(s))
  {
    EscapedStaysInside(s);
    ScanConcat(Inside, EscapeAll(s), "\"");
    assert Quoted(s)[1..] == EscapeAll(s) + "\"";
  }

  /** Every printed value is balanced. */
  lemma {:induction false} StringifyIsBalanced(v: Value)
    ensures Balanced(Stringify(v))
    decreases v
  {
    match v
    case Null => WordsAreBalanced();
    case Bool(b) => WordsAreBalanced();
    case Number(text) => NumeralIsBalanced(text);
    case Str(s) => QuotedIsBalanced(s);
    case Array(items) => ItemsAreBalanced(items); Wrapped('[', StringifyItems(items), ']');
    case Object(members) => MembersAreBalanced(members); Wrapped('{', StringifyMembers(members), '}');
  }

  lemma NumeralIsBalanced(text: Numeral)
    ensures Balanced(text)
  {
    PlainIsBalanced(text);
  }

  lemma WordsAreBalanced()
    ensures Balanced("null") && Balanced("true") && Balanced("false")
  {
    PlainIsBalanced("null");
    PlainIsBalanced("true");
    PlainIsBalanced("false");
  }

  lemma Wrapped(before: char, s: string, after: char)
    requires Balanced(s) && before !in "\"\\|" && after !in "\"\\|"
    ensures Balanced([before] + s + [after])
  {
    PlainIsBalanced([before]);
    BalancedConcat([before], s);
    Ended([before] + s, after);
  }

  lemma Ended(s: string, after: char)
    requires Balanced(s) && after !in "\"\\|"
    ensures Balanced(s + [after])
  {
    PlainIsBalanced([after]);
    BalancedConcat(s, [after]);
  }

  lemma {:induction false} ItemsAreBalanced(items: Items)
    ensures Balanced(StringifyItems(items)) && Balanced(ItemsAfter(items))
    decreases items
  {
    if items.Item? {
      StringifyIsBalanced(items.head);
      ItemsAreBalanced(items.tail);
      BalancedConcat(Stringify(items.head), ItemsAfter(items.tail));
      PlainIsBalanced(",");
      BalancedConcat(",", StringifyItems(items));
    }
  }

  lemma {:induction false} MembersAreBalanced(members: Members)
    ensures Balanced(StringifyMembers(members)) && Balanced(MembersAfter(members))
    decreases members
  {
    if members.Member? {
      var value, after := Stringify(members.value), MembersAfter(members.rest);
      QuotedIsBalanced(members.key);
      StringifyIsBalanced(members.value);
      MembersAreBalanced(members.rest);
      BalancedConcat(value, after);
      PlainIsBalanced(":");
      BalancedConcat(":", value + after);
      BalancedConcat(Quoted(members.key), ":" + (value + after));
      PlainIsBalanced(",");
      BalancedConcat(",", StringifyMembers(members));
    }
  }

  // ----- no printed value ends in a bar and another one -----

  /** The two readings of a text, from inside and from outside a literal, do not both end outside. */
  lemma {:induction false} InsideOrOutside(s: string)
    ensures Scan(Outside, s) != Outside || Scan(Inside, s) != Outside
    decreases |s|
  {
    if s != "" && (s[0] == '\\' || s[0] == '|') {
      BrokenStays(s[1..]);
    } else if s != "" {
      InsideOrOutside(s[1..]);
    }
  }

  lemma {:induction false} BrokenStays(s: string)
    ensures Scan(Broken, s) == Broken
    decreases |s|
  {
    if s != "" {
      BrokenStays(s[1..]);
    }
  }

  /** A bar inside a balanced text is inside a string literal, and what follows it is not balanced. */
  lemma NoBalancedTail(x: string, s: string)
    requires Balanced(x + "|" + s)
    ensures !Balanced(s)
  {
    ScanConcat(Outside, x + "|", s);
    ScanConcat(Outside, x, "|");
    assert Scan(Outside, x + "|") == Next(Scan(Outside, x), '|');
    BrokenStays(s);
    InsideOrOutside(s);
  }

  // ----- what is printed tells what it was printed from -----

  lemma SameFront(x: string, r: string, t: string)
    requires x + r == x + t
    ensures r == t
  {
    assert (x + r)[|x|..] == r && (x + t)[|x|..] == t;
  }

  /** An escaped character is its own, or stands after a backslash. */
  lemma EscapeForms(c: char)
    ensures var e := Escape(c);
            && e != "" && e[0] != '"'
            && (e[0] == '\\' <==> c == '"' || c == '\\' || c < ' ')
            && (e[0] != '\\' ==> e == [c])
            && (e[0] == '\\' ==> |e| >= 2 && (e[1] == 'u' ==> |e| == 6) && (e[1] != 'u' ==> |e| == 2))
  {
  }

  lemma HexIsInjective(m: nat, n: nat)
    requires m < 16 && n < 16 && Hex(m) == Hex(n)
    ensures m == n
  {
  }

  lemma ControlForm(c: char)
    requires |Escape(c)| == 6
    ensures c < ' ' && Escape(c)[4] == Hex(c as nat / 16) && Escape(c)[5] == Hex(c as nat % 16)
  {
  }

  lemma SameCode(c: char, d: char)
    requires Escape(c) == Escape(d)
    ensures c == d
  {
    EscapeForms(c);
    EscapeForms(d);
    if |Escape(c)| == 6 {
      ControlForm(c);
      ControlForm(d);
      HexIsInjective(c as nat / 16, d as nat / 16);
      HexIsInjective(c as nat % 16, d as nat % 16);
      assert c as nat == d as nat;
    }
  }

  lemma SameEscape(c: char, d: char, x: string, y: string)
    requires Escape(c) + x == Escape(d) + y
    ensures c == d && x == y
  {
    var e, f, u := Escape(c), Escape(d), Escape(c) + x;
    EscapeForms(c);
    EscapeForms(d);
    assert u[0] == e[0] == f[0];
    assert |e| >= 2 && |f| >= 2 ==> u[1] == e[1] == f[1];
    assert |e| == |f|;
    assert e == u[..|e|] == f;
    SameCode(c, d);
    SameFront(e, x, y);
  }

  lemma EscapeAllSplit(s: string, tail: string)
    requires s != ""
    ensures EscapeAll(s) + tail == Escape(s[0]) + (EscapeAll(s[1..]) + tail)
    ensures (EscapeAll(s) + tail)[0] != '"'
  {
    var e, f := Escape(s[0]), EscapeAll(s[1..]);
    EscapeForms(s[0]);
    Regrouped(e, f, tail);
    assert (e + (f + tail))[0] == e[0];
  }

  /** Texts escaped alike, up to the closing quote, are the same. */
  lemma {:induction false} SameText(s: string, s': string, r: string, t: string)
    requires EscapeAll(s) + ("\"" + r) == EscapeAll(s') + ("\"" + t)
    ensures s == s' && r == t
    decreases |s|
  {
    assert s == "" ==> EscapeAll(s) + ("\"" + r) == "\"" + r;
    assert s' == "" ==> EscapeAll(s') + ("\"" + t) == "\"" + t;
    if s != "" {
      EscapeAllSplit(s, "\"" + r);
    }
    if s' != "" {
      EscapeAllSplit(s', "\"" + t);
    }
    assert s == "" <==> s' == "";
    if s == "" {
      SameFront("\"", r, t);
    } else {
      SameEscape(s[0], s'[0], EscapeAll(s[1..]) + ("\"" + r), EscapeAll(s'[1..]) + ("\"" + t));
      SameText(s[1..], s'[1..], r, t);
      assert s == [s[0]] + s[1..] && s' == [s'[0]] + s'[1..];
    }
  }

  lemma SameQuoted(s: string, s': string, r: string, t: string)
    requires Quoted(s) + r == Quoted(s') + t
    ensures s == s' && r == t
  {
    var x, y := EscapeAll(s) + ("\"" + r), EscapeAll(s') + ("\"" + t);
    assert Quoted(s) + r == "\"" + x && Quoted(s') + t == "\"" + y;
    SameFront("\"", x, y);
    SameText(s, s', r, t);
  }

  /** What can follow a value. */
  predicate Follows(r: string) {
    r == "" || !IsNumeric(r[0])
  }

  lemma ShorterFront(x: string, y: string, r: string, t: string)
    requires x + r == y + t && |x| < |y|
    ensures r != "" && r[0] in y
  {
    assert (x + r)[|x|] == r[0] && (y + t)[|x|] == y[|x|];
  }

  lemma SameLengthFront(x: string, y: string, r: string, t: string)
    requires x + r == y + t && |x| == |y|
    ensures x == y && r == t
  {
    assert x == (x + r)[..|x|] == y;
    SameFront(x, r, t);
  }

  lemma SameNumeral(x: Numeral, y: Numeral, r: string, t: string)
    requires x + r == y + t && Follows(r) && Follows(t)
    ensures x == y && r == t
  {
    if |x| < |y| {
      ShorterFront(x, y, r, t);
    } else if |y| < |x| {
      ShorterFront(y, x, t, r);
    } else {
      SameLengthFront(x, y, r, t);
    }
  }

  /** What a text that begins so can be the print of. */
  function KindOf(c: char): nat {
    if c == 'n' then 0
    else if c == 't' then 1
    else if c == 'f' then 2
    else if c == '"' then 4
    else if c == '[' then 5
    else if c == '{' then 6
    else if IsNumeric(c) then 3
    else 7
  }

  function Kind(v: Value): nat {
    match v
    case Null => 0
    case Bool(b) => if b then 1 else 2
    case Number(_) => 3
    case Str(_) => 4
    case Array(_) => 5
    case Object(_) => 6
  }

  lemma NumeralsAreOfKind(c: char)
    requires IsNumeric(c)
    ensures KindOf(c) == 3
  {
  }

  lemma NoValueStartsSo(c: char)
    requires c == ']' || c == '}' || c == ','
    ensures KindOf(c) == 7
  {
    assert !IsNumeric(c);
  }

  lemma FirstCharacter(v: Value, tail: string)
    ensures Stringify(v) != "" && (Stringify(v) + tail)[0] == Stringify(v)[0] && KindOf(Stringify(v)[0]) == Kind(v)
  {
    var s := Stringify(v);
    match v
    case Null => assert s[0] == 'n';
    case Bool(b) => assert s[0] == if b then 't' else 'f';
    case Number(text) =>
      assert s[0] in s;
      NumeralsAreOfKind(s[0]);
    case Str(_) => assert s[0] == '"';
    case Array(_) => assert s[0] == '[';
    case Object(_) => assert s[0] == '{';
  }

  lemma Regrouped(a: string, b: string, c: string)
    ensures (a + b) + c == a + (b + c)
  {
  }

  lemma ItemsSplit(items: Items, r: string)
    ensures items.Item? ==> StringifyItems(items) + r == Stringify(items.head) + (ItemsAfter(items.tail) + r)
    ensures ItemsAfter(items) + r == if items.NoItem? then r else "," + (StringifyItems(items) + r)
  {
    if items.Item? {
      Regrouped(Stringify(items.head), ItemsAfter(items.tail), r);
      Regrouped(",", StringifyItems(items), r);
    } else {
      assert "" + r == r;
    }
  }

  lemma MembersSplit(members: Members, r: string)
    ensures members.Member? ==>
              StringifyMembers(members) + r ==
              Quoted(members.key) + (":" + (Stringify(members.value) + (MembersAfter(members.rest) + r)))
    ensures MembersAfter(members) + r == if members.NoMember? then r else "," + (StringifyMembers(members) + r)
  {
    if members.Member? {
      var value, after := Stringify(members.value), MembersAfter(members.rest);
      Regrouped(value, after, r);
      Regrouped(":", value + after, r);
      Regrouped(Quoted(members.key), ":" + (value + after), r);
      Regrouped(",", StringifyMembers(members), r);
    } else {
      assert "" + r == r;
    }
  }

  /** Two values printed alike, with something after them, are the same. */
  lemma {:induction false} SameValue(v: Value, w: Value, r: string, t: string)
    requires Stringify(v) + r == Stringify(w) + t && Follows(r) && Follows(t)
    ensures v == w && r == t
    decreases v
  {
    FirstCharacter(v, r);
    FirstCharacter(w, t);
    assert Kind(v) == Kind(w);
    match v
    case Null => SameFront(Stringify(v), r, t);
    case Bool(b) => SameFront(Stringify(v), r, t);
    case Number(text) => SameNumeral(text, w.text, r, t);
    case Str(s) => SameQuoted(s, w.s, r, t);
    case Array(items) =>
      Unwrapped("[", StringifyItems(items), "]", r, StringifyItems(w.items), t);
      SameItems(items, w.items, "]" + r, "]" + t);
      SameFront("]", r, t);
    case Object(members) =>
      Unwrapped("{", StringifyMembers(members), "}", r, StringifyMembers(w.members), t);
      SameMembers(members, w.members, "}" + r, "}" + t);
      SameFront("}", r, t);
  }

  lemma Unwrapped(before: string, x: string, after: string, r: string, y: string, t: string)
    requires before + x + after + r == before + y + after + t
    ensures x + (after + r) == y + (after + t)
  {
    assert before + x + after + r == before + (x + (after + r));
    assert before + y + after + t == before + (y + (after + t));
    SameFront(before, x + (after + r), y + (after + t));
  }

  /** What follows a value in an array or in an object: its end, or a comma and more. */
  lemma SameAfter(more: bool, x: string, r: string, more': bool, y: string, t: string)
    requires r != "" && t != "" && r[0] != ',' && t[0] != ','
    requires (if more then "," + x else r) == (if more' then "," + y else t)
    ensures more == more' && (if more then x == y else r == t)
  {
    if more && more' {
      SameFront(",", x, y);
    }
  }

  predicate EndsArray(r: string) {
    r != "" && r[0] == ']'
  }

  predicate EndsObject(r: string) {
    r != "" && r[0] == '}'
  }

  lemma ItemsStart(i: Items, r: string)
    requires EndsArray(r)
    ensures StringifyItems(i) + r != "" && ((StringifyItems(i) + r)[0] == ']' <==> i.NoItem?)
  {
    if i.Item? {
      ItemsSplit(i, r);
      FirstCharacter(i.head, ItemsAfter(i.tail) + r);
      NoValueStartsSo(']');
    } else {
      assert "" + r == r;
    }
  }

  lemma {:induction false} SameItems(i: Items, j: Items, r: string, t: string)
    requires StringifyItems(i) + r == StringifyItems(j) + t && EndsArray(r) && EndsArray(t)
    ensures i == j && r == t
    decreases i
  {
    ItemsStart(i, r);
    ItemsStart(j, t);
    if i.Item? && j.Item? {
      SameHead(i, j, r, t);
      ItemsSplit(i.tail, r);
      ItemsSplit(j.tail, t);
      SameAfter(i.tail.Item?, StringifyItems(i.tail) + r, r, j.tail.Item?, StringifyItems(j.tail) + t, t);
      if i.tail.Item? {
        SameItems(i.tail, j.tail, r, t);
      }
    } else {
      assert "" + r == r && "" + t == t;
    }
  }

  lemma {:induction false} SameHead(i: Items, j: Items, r: string, t: string)
    requires i.Item? && j.Item?
    requires StringifyItems(i) + r == StringifyItems(j) + t && EndsArray(r) && EndsArray(t)
    ensures i.head == j.head && ItemsAfter(i.tail) + r == ItemsAfter(j.tail) + t
    decreases i, 0
  {
    ItemsSplit(i, r);
    ItemsSplit(j, t);
    ItemsSplit(i.tail, r);
    ItemsSplit(j.tail, t);
    SameValue(i.head, j.head, ItemsAfter(i.tail) + r, ItemsAfter(j.tail) + t);
  }

  lemma MembersStart(m: Members, r: string)
    requires EndsObject(r)
    ensures StringifyMembers(m) + r != "" && ((StringifyMembers(m) + r)[0] == '}' <==> m.NoMember?)
  {
    if m.Member? {
      MembersSplit(m, r);
      assert Quoted(m.key)[0] == '"';
    } else {
      assert "" + r == r;
    }
  }

  lemma {:induction false} SameMembers(m: Members, n: Members, r: string, t: string)
    requires StringifyMembers(m) + r == StringifyMembers(n) + t && EndsObject(r) && EndsObject(t)
    ensures m == n && r == t
    decreases m
  {
    MembersStart(m, r);
    MembersStart(n, t);
    if m.Member? && n.Member? {
      SameMember(m, n, r, t);
      MembersSplit(m.rest, r);
      MembersSplit(n.rest, t);
      SameAfter(m.rest.Member?, StringifyMembers(m.rest) + r, r, n.rest.Member?, StringifyMembers(n.rest) + t, t);
      if m.rest.Member? {
        SameMembers(m.rest, n.rest, r, t);
      }
    } else {
      assert "" + r == r && "" + t == t;
    }
  }

  lemma {:induction false} SameMember(m: Members, n: Members, r: string, t: string)
    requires m.Member? && n.Member?
    requires StringifyMembers(m) + r == StringifyMembers(n) + t && EndsObject(r) && EndsObject(t)
    ensures m.key == n.key && m.value == n.value && MembersAfter(m.rest) + r == MembersAfter(n.rest) + t
    decreases m, 0
  {
    var x, y := MembersAfter(m.rest) + r, MembersAfter(n.rest) + t;
    MembersSplit(m, r);
    MembersSplit(n, t);
    SameKey(m.key, n.key, Stringify(m.value) + x, Stringify(n.value) + y);
    MemberFollows(m.rest, r);
    MemberFollows(n.rest, t);
    SameValue(m.value, n.value, x, y);
  }

  lemma SameKey(s: string, s': string, r: string, t: string)
    requires Quoted(s) + (":" + r) == Quoted(s') + (":" + t)
    ensures s == s' && r == t
  {
    SameQuoted(s, s', ":" + r, ":" + t);
    SameFront(":", r, t);
  }

  lemma MemberFollows(members: Members, r: string)
    requires EndsObject(r)
    ensures Follows(MembersAfter(members) + r)
  {
    MembersSplit(members, r);
  }

  /** Printing loses nothing: two values that are printed alike are the same. */
  lemma StringifyIsInjective(v: Value, w: Value)
    ensures Stringify(v) == Stringify(w) ==> v == w
  {
    if Stringify(v) == Stringify(w) {
      assert Stringify(v) + "" == Stringify(v) && Stringify(w) + "" == Stringify(w);
      SameValue(v, w, "", "");
    }
  }
}

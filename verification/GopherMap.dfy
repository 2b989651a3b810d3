/** Gopher menus: one item a line, "<type><display> TAB <selector> TAB <host> TAB <port>",
    read into a growing array and printed. */
module GopherMap {
  import opened Common
  import opened Decimal
  import Digits

  const DEFAULT_PORT: int := 70

  datatype Item = Item(kind: char, display: string, selector: string, host: string, port: int)

  // ---------- lines and fields ----------

  /** The first line without its line end. */
  function FirstLine(s: string): string {
    StripCr(s[..IndexOf(s, '\n')])
  }

  /** What follows the first line. */
  function AfterLine(s: string): (t: string)
    ensures s != "" ==> |t| < |s|
  {
    var n := IndexOf(s, '\n');
    if n < |s| then s[n + 1..] else ""
  }

  /** The text up to the first tab, and what follows that tab. */
  function Field(s: string): string {
    s[..IndexOf(s, '\t')]
  }

  function AfterField(s: string): string {
    var n := IndexOf(s, '\t');
    if n < |s| then s[n + 1..] else ""
  }

  /** The port field: at most fifteen characters of it, if they name a port. */
  function PortOf(s: string): (port: int)
    ensures 0 < port <= 65535
  {
    var v := Atoi(if |s| > 15 then s[..15] else s);
    if 0 < v <= 65535 then v else DEFAULT_PORT
  }

  /** The item a line stands for; a line without tabs is information. */
  function ItemOf(line: string): Item
    requires line != ""
  {
    if IndexOf(line, '\t') == |line| then Item('i', line, "", "", DEFAULT_PORT)
    else
      var display := line[1..];
      var selector := AfterField(display);
      var host := AfterField(selector);
      Item(line[0], Field(display), Field(selector), Field(host), PortOf(AfterField(host)))
  }

  /** The items of a menu: one for each line that is not empty, up to a lone period. */
  function Items(s: string): seq<Item>
    decreases |s|
  {
    if s == "" then []
    else
      var line := FirstLine(s);
      if line == "" then Items(AfterLine(s))
      else if line == "." then []
      else [ItemOf(line)] + Items(AfterLine(s))
  }

  // ---------- the parser ----------

  /** A growing array of items. */
  class ItemList {
    var arr: array<Item>
    var count: nat

    ghost predicate Valid()
      reads this
    {
      count <= arr.Length
    }

    ghost function Contents(): seq<Item>
      reads this, arr
      requires Valid()
    {
      arr[..count]
    }

    constructor (capacity: nat)
      ensures Valid() && Contents() == [] && fresh(arr)
    {
      arr := new Item[capacity](_ => Item('i', "", "", "", 0));
      count := 0;
    }

    /** Appends an item, doubling a full array. */
    method Push(item: Item)
      requires Valid()
      modifies this, arr
      ensures Valid() && Contents() == old(Contents()) + [item]
      ensures arr == old(arr) || fresh(arr)
    {
      if count >= arr.Length {
        var capacity := if arr.Length * 2 <= 0 then 64 else arr.Length * 2;
        var bigger := new Item[capacity](_ => item);
        var i := 0;
        while i < count
          modifies bigger
          invariant i <= count
          invariant forall k :: 0 <= k < i ==> bigger[k] == arr[k]
        {
          bigger[i] := arr[i];
          i := i + 1;
        }
        assert bigger[..count] == arr[..count];
        arr := bigger;
      }
      arr[count] := item;
      count := count + 1;
    }
  }

  method Find(s: string, start: nat, end: nat, c: char) returns (n: nat)
    requires start <= end <= |s|
    ensures n == start + IndexOf(s[start..end], c)
  {
    n := start;
    while n < end && s[n] != c
      invariant start <= n <= end
      invariant n + IndexOf(s[n..end], c) == start + IndexOf(s[start..end], c)
    {
      assert s[n..end][1..] == s[n + 1..end];
      n := n + 1;
    }
  }

  /** Reads the fields of one line. */
  method ReadItem(line: string) returns (item: Item)
    requires line != ""
    ensures item == ItemOf(line)
  {
    hide *;
    var n := |line|;
    ItemFields(line);
    var tab := Find(line, 0, n, '\t');
    if tab == n {
      return Item('i', line, "", "", 70);
    }
    NoPort();
    var display, at, more := ReadField(line, 1);
    var selector, host, port := "", "", 70;
    if more {
      selector, at, more := ReadField(line, at);
      if more {
        host, at, more := ReadField(line, at);
        if more {
          port := ReadPort(line, at);
        }
      }
    }
    item := Item(line[0], display, selector, host, port);
  }

  /** Reads the field that starts at i; `more` if a tab ends it, and then the next
      field starts at `next`. */
  method ReadField(line: string, i: nat) returns (field: string, next: nat, more: bool)
    requires i <= |line|
    ensures next <= |line| && field == Field(line[i..])
    ensures AfterField(line[i..]) == if more then line[next..] else ""
  {
    hide *;
    FieldsAt(line, i);
    var t := Find(line, i, |line|, '\t');
    field := line[i..t];
    more := t < |line|;
    next := if more then t + 1 else t;
  }

  /** An item field by field. */
  lemma ItemFields(line: string)
    requires line != ""
    ensures IndexOf(line[0..|line|], '\t') <= |line|
    ensures IndexOf(line[0..|line|], '\t') == |line| ==> ItemOf(line) == Item('i', line, "", "", 70)
    ensures IndexOf(line[0..|line|], '\t') < |line| ==>
      var selector := AfterField(line[1..]);
      var host := AfterField(selector);
      ItemOf(line) == Item(line[0], Field(line[1..]), Field(selector), Field(host), PortOf(AfterField(host)))
  {
    hide IndexOf, PortOf, Field, AfterField;
    assert line[0..|line|] == line;
  }

  method ReadPort(line: string, start: nat) returns (port: int)
    requires start <= |line|
    ensures port == PortOf(line[start..])
  {
    hide Atoi;
    var n := |line| - start;
    if n >= 16 { n := 15; }
    var digits := line[start..start + n];
    assert line[start..][..n] == digits;
    assert |line| - start <= 15 ==> digits == line[start..];
    var p := Atoi(digits);
    port := DEFAULT_PORT;
    if p > 0 && p <= 65535 { port := p; }
  }

  /** The field that starts at i. */
  lemma FieldsAt(line: string, i: nat)
    requires i <= |line|
    ensures var t := i + IndexOf(line[i..|line|], '\t');
      && t <= |line| && Field(line[i..]) == line[i..t]
      && AfterField(line[i..]) == if t < |line| then line[t + 1..] else ""
  {
    hide IndexOf;
    var n := IndexOf(line[i..], '\t');
    assert line[i..|line|] == line[i..];
    SliceOfDrop(line, i, 0, n);
    if n < |line| - i { DropOfDrop(line, i, n + 1); }
  }

  /** Missing fields are empty, and a missing port is the default. */
  lemma NoPort()
    ensures Field("") == "" && AfterField("") == "" && PortOf("") == 70
  {
    assert Leading("") == "" && ValueOf("") == 0;
  }

  /** Reads a whole menu. */
  method Parse(buf: string) returns (list: ItemList)
    ensures list.Valid() && fresh(list) && fresh(list.arr)
    ensures list.Contents() == Items(buf)
  {
    hide IndexOf, ItemOf, Items;
    list := new ItemList(64);
    var i: nat := 0;
    assert buf[0..] == buf && [] + Items(buf) == Items(buf);
    while i < |buf|
      invariant i <= |buf| && list.Valid() && fresh(list) && fresh(list.arr)
      invariant Items(buf) == list.Contents() + Items(buf[i..])
      decreases |buf| - i
    {
      var start := i;
      ItemsAt(buf, start);
      i := Find(buf, start, |buf|, '\n');
      var end := i;
      if i < |buf| { i := i + 1; }
      if end > start && buf[end - 1] == '\r' { end := end - 1; }
      var line := buf[start..end];
      if |line| == 0 { continue; }
      if |line| == 1 && line[0] == '.' {
        assert list.Contents() + [] == list.Contents();
        return;
      }
      var item := ReadItem(line);
      Assoc(list.Contents(), [item], Items(buf[i..]));
      list.Push(item);
    }
    NoItems();
    assert buf[i..] == "" && list.Contents() + [] == list.Contents();
  }

  lemma NoItems()
    ensures Items("") == []
  {
  }

  /** The menu from the start of a line: that line, and the rest of the menu. */
  lemma ItemsAt(buf: string, i: nat)
    requires i < |buf|
    ensures var n := i + IndexOf(buf[i..|buf|], '\n');
      && i <= n <= |buf|
      && var next := if n < |buf| then n + 1 else n;
      var line := if n > i && buf[n - 1] == '\r' then buf[i..n - 1] else buf[i..n];
      Items(buf[i..]) ==
        if |line| == 0 then Items(buf[next..])
        else if |line| == 1 && line[0] == '.' then []
        else [ItemOf(line)] + Items(buf[next..])
  {
    hide *;
    LineAt(buf, i);
    ItemsFirst(buf[i..]);
  }

  lemma ItemsFirst(s: string)
    requires s != ""
    ensures var line := FirstLine(s);
      Items(s) ==
        if |line| == 0 then Items(AfterLine(s))
        else if |line| == 1 && line[0] == '.' then []
        else [ItemOf(line)] + Items(AfterLine(s))
  {
    hide FirstLine, AfterLine, ItemOf;
    var line := FirstLine(s);
    assert |line| == 1 && line[0] == '.' <==> line == ".";
  }

  /** The line that starts at i. */
  lemma LineAt(buf: string, i: nat)
    requires i < |buf|
    ensures var n := i + IndexOf(buf[i..|buf|], '\n');
      && i <= n <= |buf|
      && FirstLine(buf[i..]) == (if n > i && buf[n - 1] == '\r' then buf[i..n - 1] else buf[i..n])
      && AfterLine(buf[i..]) == buf[if n < |buf| then n + 1 else n..]
  {
    hide IndexOf;
    var n := IndexOf(buf[i..], '\n');
    assert buf[i..|buf|] == buf[i..];
    SliceOfDrop(buf, i, 0, n);
    if n < |buf| - i { DropOfDrop(buf, i, n + 1); }
    if n > 0 { assert buf[i..][..n][..n - 1] == buf[i..i + n - 1]; }
  }

  // ---------- counting ----------

  function LinesOf(s: string): seq<string>
    decreases |s|
  {
    if s == "" then [] else [FirstLine(s)] + LinesOf(AfterLine(s))
  }

  /** The lines before the first lone period. */
  function BeforePeriod(lines: seq<string>): seq<string> {
    if lines == [] || lines[0] == "." then [] else [lines[0]] + BeforePeriod(lines[1..])
  }

  function NotEmpty(lines: seq<string>): (r: seq<string>)
    ensures forall i :: 0 <= i < |r| ==> r[i] != ""
  {
    if lines == [] then [] else (if lines[0] == "" then [] else [lines[0]]) + NotEmpty(lines[1..])
  }

  /** One item for every line that is not empty before the first lone period: none
      is dropped, whatever it looks like. */
  lemma {:induction false} OneItemPerLine(s: string)
    ensures |Items(s)| == |NotEmpty(BeforePeriod(LinesOf(s)))|
    ensures forall i :: 0 <= i < |Items(s)| ==> Items(s)[i] == ItemOf(NotEmpty(BeforePeriod(LinesOf(s)))[i])
    decreases |s|
  {
    hide FirstLine, AfterLine, ItemOf;
    if s != "" {
      assert LinesOf(s)[0] == FirstLine(s) && LinesOf(s)[1..] == LinesOf(AfterLine(s));
      if FirstLine(s) != "." {
        AfterIsShorter(s);
        OneItemPerLine(AfterLine(s));
        assert BeforePeriod(LinesOf(s))[1..] == BeforePeriod(LinesOf(AfterLine(s)));
      }
    }
  }

  lemma AfterIsShorter(s: string)
    requires s != ""
    ensures |AfterLine(s)| < |s|
  {
  }

  // ---------- printing ----------

  function PrintPort(port: int): string {
    if port < 0 then "-" + Print(-port) else Print(port)
  }

  /** The line of an item. */
  function LineText(item: Item): (line: string)
    ensures line != ""
  {
    [item.kind] + (item.display + ("\t" + (item.selector + ("\t" + (item.host + ("\t" + PrintPort(item.port)))))))
  }

  const END: string := ".\r\n"

  function PrintMenu(items: seq<Item>): string {
    if items == [] then "" else LineText(items[0]) + "\r\n" + PrintMenu(items[1..])
  }

  ghost predicate Lacks(s: string, c: char) {
    forall i :: 0 <= i < |s| ==> s[i] != c
  }

  /** Items whose line says what they are: no tab or line end in a field, and a port. */
  ghost predicate Printable(item: Item) {
    && Lacks(item.display, '\t') && Lacks(item.selector, '\t') && Lacks(item.host, '\t')
    && Lacks(item.display, '\n') && Lacks(item.selector, '\n') && Lacks(item.host, '\n')
    && item.kind != '\n' && 0 < item.port <= 65535
  }

  lemma {:induction false} IndexOfAppend(s: string, t: string, c: char)
    requires Lacks(s, c)
    ensures IndexOf(s + t, c) == |s| + IndexOf(t, c)
    decreases |s|
  {
    if s == "" {
      assert s + t == t;
    } else {
      assert (s + t)[1..] == s[1..] + t;
      IndexOfAppend(s[1..], t, c);
    }
  }

  lemma FieldOfAppend(s: string, t: string)
    requires Lacks(s, '\t')
    ensures Field(s + ("\t" + t)) == s && AfterField(s + ("\t" + t)) == t
  {
    IndexOfAppend(s, "\t" + t, '\t');
  }

  lemma PortRoundTrip(port: int)
    requires 0 < port <= 65535
    ensures PortOf(PrintPort(port)) == port
  {
    AtoiPrint(port);
    assert Digits.Pow(10, 5) == 100000;
    PrintIsShort(port, 5);
  }

  /** A printable item is read back from its line. */
  lemma ItemRoundTrip(item: Item)
    requires Printable(item)
    ensures ItemOf(LineText(item)) == item
  {
    hide IndexOf, PortOf, Field, AfterField, PrintPort;
    var port := PrintPort(item.port);
    FieldOfAppend(item.host, port);
    FieldOfAppend(item.selector, item.host + ("\t" + port));
    FieldOfAppend(item.display, item.selector + ("\t" + (item.host + ("\t" + port))));
    PortRoundTrip(item.port);
    var line := LineText(item);
    assert line[1..] == item.display + ("\t" + (item.selector + ("\t" + (item.host + ("\t" + port)))));
    assert line[1 + |item.display|] == '\t';
  }

  lemma {:induction false} DigitsLackLf(n: nat)
    ensures Lacks(Print(n), '\n') && Lacks(Print(n), '\t')
  {
    PrintIsDigits(n);
  }

  lemma LacksAppend(s: string, t: string, c: char)
    requires Lacks(s, c) && Lacks(t, c)
    ensures Lacks(s + t, c)
  {
  }

  lemma LineTextIsOneLine(item: Item)
    requires Printable(item)
    ensures Lacks(LineText(item), '\n') && LineText(item) != "."
  {
    hide Print;
    var port := PrintPort(item.port);
    DigitsLackLf(item.port);
    LacksAppend("\t", port, '\n');
    LacksAppend(item.host, "\t" + port, '\n');
    LacksAppend("\t", item.host + ("\t" + port), '\n');
    LacksAppend(item.selector, "\t" + (item.host + ("\t" + port)), '\n');
    LacksAppend("\t", item.selector + ("\t" + (item.host + ("\t" + port))), '\n');
    LacksAppend(item.display, "\t" + (item.selector + ("\t" + (item.host + ("\t" + port)))), '\n');
    LacksAppend([item.kind], item.display + ("\t" + (item.selector + ("\t" + (item.host + ("\t" + port))))), '\n');
    assert |LineText(item)| > 1;
  }

  /** A line printed with CR LF in front of anything is taken off again. */
  lemma PrintedLine(line: string, more: string)
    requires Lacks(line, '\n')
    ensures FirstLine(line + "\r\n" + more) == line && AfterLine(line + "\r\n" + more) == more
  {
    hide IndexOf;
    var s := line + "\r\n" + more;
    var l := line + "\r";
    LacksAppend(line, "\r", '\n');
    IndexOfAppend(l, "\n" + more, '\n');
    assert IndexOf("\n" + more, '\n') == 0 by { FirstIsIt("\n" + more, '\n'); }
    assert s == l + ("\n" + more);
    assert s[..|l|] == l && s[|l| + 1..] == more;
    assert l[..|l| - 1] == line;
  }

  lemma FirstIsIt(s: string, c: char)
    requires s != "" && s[0] == c
    ensures IndexOf(s, c) == 0
  {
  }

  lemma {:induction false} PrintedItems(items: seq<Item>, more: string)
    requires forall i :: 0 <= i < |items| ==> Printable(items[i])
    ensures Items(PrintMenu(items) + more) == items + Items(more)
    decreases |items|
  {
    hide FirstLine, AfterLine, ItemOf, LineText, Printable;
    if items == [] {
      assert PrintMenu(items) + more == more;
    } else {
      var line, rest := LineText(items[0]), PrintMenu(items[1..]) + more;
      PrintedItems(items[1..], more);
      assert Printable(items[0]);
      LineTextIsOneLine(items[0]);
      ItemRoundTrip(items[0]);
      PrintedLine(line, rest);
      Assoc(line + "\r\n", PrintMenu(items[1..]), more);
      assert Items(line + "\r\n" + rest) == [items[0]] + Items(rest);
      assert items == [items[0]] + items[1..];
      Assoc([items[0]], items[1..], Items(more));
    }
  }

  lemma EndEndsMenu(junk: string)
    ensures Items(END + junk) == []
  {
    hide FirstLine, AfterLine;
    PrintedLine(".", junk);
    assert "." + "\r\n" + junk == END + junk;
  }

  // ---------- what a parsed item looks like ----------

  lemma FieldLacks(s: string)
    ensures Lacks(Field(s), '\t')
    ensures Lacks(s, '\n') ==> Lacks(Field(s), '\n') && Lacks(AfterField(s), '\n')
  {
    hide IndexOf;
  }

  lemma ParsedItemIsPrintable(line: string)
    requires line != "" && Lacks(line, '\n')
    ensures Printable(ItemOf(line))
  {
    hide IndexOf, PortOf, Field, AfterField;
    assert Lacks(line[1..], '\n');
    if IndexOf(line, '\t') == |line| {
      assert Lacks(line, '\t');
    } else {
      FieldLacks(line[1..]);
      FieldLacks(AfterField(line[1..]));
      FieldLacks(AfterField(AfterField(line[1..])));
    }
  }

  lemma FirstLineLacksLf(s: string)
    ensures Lacks(FirstLine(s), '\n')
  {
    hide IndexOf;
  }

  /** Every item parsed from any input can be printed. */
  lemma {:induction false} ParsedItemsArePrintable(s: string, i: nat)
    requires i < |Items(s)|
    ensures Printable(Items(s)[i])
    decreases |s|
  {
    hide FirstLine, AfterLine, ItemOf, Printable;
    AfterIsShorter(s);
    var line := FirstLine(s);
    if line == "" {
      ParsedItemsArePrintable(AfterLine(s), i);
    } else if i == 0 {
      FirstLineLacksLf(s);
      ParsedItemIsPrintable(line);
    } else {
      ParsedItemsArePrintable(AfterLine(s), i - 1);
    }
  }

  /** A printed menu is read back exactly when its items are printable, whatever the
      server sends after the terminator. */
  lemma MenuRoundTrip(items: seq<Item>, junk: string)
    ensures Items(PrintMenu(items) + (END + junk)) == items <==> forall i :: 0 <= i < |items| ==> Printable(items[i])
  {
    hide Items, Printable, PrintMenu;
    var s := PrintMenu(items) + (END + junk);
    if forall i :: 0 <= i < |items| ==> Printable(items[i]) {
      PrintedItems(items, END + junk);
      EndEndsMenu(junk);
      assert items + [] == items;
    }
    if Items(s) == items {
      forall i | 0 <= i < |items| ensures Printable(items[i]) {
        ParsedItemsArePrintable(s, i);
      }
    }
  }

  /** Parsing, printing and parsing again changes nothing, for every input. */
  lemma ParsePrintParse(s: string, junk: string)
    ensures Items(PrintMenu(Items(s)) + (END + junk)) == Items(s)
  {
    hide Items, Printable, PrintMenu;
    forall i | 0 <= i < |Items(s)| ensures Printable(Items(s)[i]) {
      ParsedItemsArePrintable(s, i);
    }
    MenuRoundTrip(Items(s), junk);
  }

  // ---------- the forms a line takes ----------

  /** A line without a tab is information, shown as it is. */
  lemma LineWithoutTab(line: string)
    requires line != "" && Lacks(line, '\t')
    ensures ItemOf(line) == Item('i', line, "", "", 70)
  {
  }

  /** Fields that a line lacks are empty, and the port is then 70. */
  lemma ShortLine(kind: char, display: string, selector: string, host: string)
    requires Lacks(display, '\t') && Lacks(selector, '\t') && Lacks(host, '\t')
    ensures ItemOf([kind] + (display + ("\t" + selector))) == Item(kind, display, selector, "", 70)
    ensures ItemOf([kind] + (display + ("\t" + (selector + ("\t" + host))))) == Item(kind, display, selector, host, 70)
  {
    LastField("");
    LastField(host);
    LastField(selector);
    NoPort();
    hide IndexOf, Field, AfterField, PortOf;
    FieldOfAppend(display, selector);
    FieldOfAppend(display, selector + ("\t" + host));
    FieldOfAppend(selector, host);
    TabbedLine(kind, display, selector);
    TabbedLine(kind, display, selector + ("\t" + host));
  }

  lemma LastField(s: string)
    requires Lacks(s, '\t')
    ensures Field(s) == s && AfterField(s) == ""
  {
  }

  lemma TabbedLine(kind: char, display: string, rest: string)
    requires Lacks(display, '\t')
    ensures var line := [kind] + (display + ("\t" + rest));
      var selector := AfterField(display + ("\t" + rest));
      var host := AfterField(selector);
      ItemOf(line) == Item(kind, display, Field(selector), Field(host), PortOf(AfterField(host)))
  {
    hide IndexOf, Field, AfterField, PortOf;
    var line := [kind] + (display + ("\t" + rest));
    FieldOfAppend(display, rest);
    assert line[1..] == display + ("\t" + rest);
    assert line[1 + |display|] == '\t';
  }

  /** What is behind the third tab is read as a number as far as its digits go; one that
      is no port is 70. */
  lemma PortField(kind: char, display: string, selector: string, host: string, digits: string, junk: string)
    requires Lacks(display, '\t') && Lacks(selector, '\t') && Lacks(host, '\t')
    requires |digits| <= 15 && forall i :: 0 <= i < |digits| ==> '0' <= digits[i] <= '9'
    requires junk == "" || (digits != "" && !('0' <= junk[0] <= '9'))
    ensures ItemOf([kind] + (display + ("\t" + (selector + ("\t" + (host + ("\t" + (digits + junk)))))))) ==
      Item(kind, display, selector, host, if 1 <= ValueOf(digits) <= 65535 then ValueOf(digits) else 70)
  {
    hide IndexOf, Field, AfterField, PortOf, ValueOf;
    var port := digits + junk;
    FieldOfAppend(host, port);
    FieldOfAppend(selector, host + ("\t" + port));
    FieldOfAppend(display, selector + ("\t" + (host + ("\t" + port))));
    TabbedLine(kind, display, selector + ("\t" + (host + ("\t" + port))));
    PortOfText(digits, junk);
  }

  lemma PortOfText(digits: string, junk: string)
    requires |digits| <= 15 && forall i :: 0 <= i < |digits| ==> '0' <= digits[i] <= '9'
    requires junk == "" || (digits != "" && !('0' <= junk[0] <= '9'))
    ensures PortOf(digits + junk) == if 1 <= ValueOf(digits) <= 65535 then ValueOf(digits) else 70
  {
    hide Atoi, ValueOf;
    var room := 15 - |digits|;
    var seen := if |junk| > room then junk[..room] else junk;
    AtoiForms("", "", digits, seen);
    assert "" + ("" + (digits + seen)) == digits + seen;
    assert |digits + junk| > 15 ==> (digits + junk)[..15] == digits + seen;
  }

  /** A menu is read line by line, with either line end: empty lines are passed over, a
      lone period ends it, and any other line is an item. */
  lemma MenuLine(line: string, end: string, more: string)
    requires Lacks(line, '\n') && (end == "\n" || end == "\r\n")
    requires end == "\n" && line != "" ==> line[|line| - 1] != '\r'
    ensures Items(line + end + more) ==
      if line == "" then Items(more) else if line == "." then [] else [ItemOf(line)] + Items(more)
  {
    hide ItemOf;
    if end == "\n" { PlainLine(line, more); } else { PrintedLine(line, more); }
    hide FirstLine, AfterLine;
  }

  lemma PlainLine(line: string, more: string)
    requires Lacks(line, '\n') && (line != "" ==> line[|line| - 1] != '\r')
    ensures FirstLine(line + "\n" + more) == line && AfterLine(line + "\n" + more) == more
  {
    var s := line + "\n" + more;
    assert s == line + ("\n" + more);
    IndexOfAppend(line, "\n" + more, '\n');
    FirstIsIt("\n" + more, '\n');
    hide IndexOf;
    assert s[..|line|] == line && s[|line| + 1..] == more;
  }

  /** The last line may lack its line end. */
  lemma LastMenuLine(line: string)
    requires Lacks(line, '\n') && line != "" && line[|line| - 1] != '\r'
    ensures Items(line) == if line == "." then [] else [ItemOf(line)]
  {
    hide ItemOf;
    assert line[..|line|] == line;
  }
}

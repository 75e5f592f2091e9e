/** Records of /etc/passwd (user/uauth.c), the decimal conversions they use (user/ulib.c), and
    the file of lines that holds them (user/ufile.c). */
module Passwd {
  import opened Options
  import opened CStrings

  /** A missing password is the null pointer. */
  datatype User = User(username: string, password: Option<string>, uid: nat, gid: nat, fullname: string,
                       homedir: string)

  const SEP := ':'
  const NL := '\n'
  const BUFSIZE := 128

  // ----- decimal numbers

  predicate IsDigit(c: char) {
    '0' <= c <= '9'
  }

  function DigitOf(d: nat): (c: char)
    requires d < 10
    ensures IsDigit(c)
  {
    '0' + d as char
  }

  function DigitValue(c: char): (d: nat)
    requires IsDigit(c)
    ensures d < 10
  {
    c as int - '0' as int
  }

  function Digits(n: nat): (s: string)
    ensures s != [] && forall i | 0 <= i < |s| :: IsDigit(s[i])
  {
    if n < 10 then [DigitOf(n)] else Digits(n / 10) + [DigitOf(n % 10)]
  }

  function Value(s: string): (n: nat)
    requires forall i | 0 <= i < |s| :: IsDigit(s[i])
  {
    if s == [] then 0 else assert IsDigit(s[|s| - 1]); 10 * Value(s[..|s| - 1]) + DigitValue(s[|s| - 1])
  }

  lemma {:induction false} ValueDigits(n: nat)
    ensures Value(Digits(n)) == n
  {
    if n < 10 {
      assert Digits(n)[..0] == [];
    } else {
      ValueDigits(n / 10);
      var s := Digits(n);
      assert s[..|s| - 1] == Digits(n / 10);
    }
  }

  /** The digits at the start of a string. */
  function Leading(s: string): (d: string)
    ensures d <= s && forall i | 0 <= i < |d| :: IsDigit(d[i])
    ensures |d| < |s| ==> !IsDigit(s[|d|])
  {
    if s == [] || !IsDigit(s[0]) then [] else [s[0]] + Leading(s[1..])
  }

  method Atoi(s: CString) returns (n: nat)
    ensures n == Value(Leading(s))
  {
    n := 0;
    var i := 0;
    assert s[..0] == [];
    while '0' <= CharAt(s, i) <= '9'
      invariant 0 <= i <= |s| && (forall k | 0 <= k < i :: IsDigit(s[k])) && n == Value(s[..i])
      decreases |s| - i
    {
      assert s[..i + 1][..i] == s[..i];
      n := n * 10 + DigitValue(s[i]);
      i := i + 1;
    }
    LeadingIs(s, i);
  }

  lemma LeadingIs(s: string, i: nat)
    requires i <= |s| && (forall k | 0 <= k < i :: IsDigit(s[k])) && (i < |s| ==> !IsDigit(s[i]))
    ensures Leading(s) == s[..i]
  {
    var d := Leading(s);
    assert |d| == i;
  }

  method DigitCount(val: nat) returns (digits: nat)
    ensures digits == |Digits(val)|
  {
    digits := 1;
    var v: nat := val / 10;
    while v != 0
      invariant digits + (if v == 0 then 0 else |Digits(v)|) == |Digits(val)|
      decreases v
    {
      digits := digits + 1;
      v := v / 10;
    }
  }

  /** The loop of writeuser that fills the digits in from the right. */
  method Decimal(val: nat) returns (s: string)
    ensures s == Digits(val)
  {
    var n := DigitCount(val);
    var a := new char[n];
    var temp, i := val, n - 1;
    while true
      invariant 0 <= i < n && |Digits(temp)| == i + 1 && Digits(val) == Digits(temp) + a[i + 1..]
      decreases temp
    {
      ghost var tail := a[i + 1..];
      a[i] := DigitOf(temp % 10);
      assert a[i..] == [DigitOf(temp % 10)] + tail;
      if temp / 10 == 0 {
        break;
      }
      temp, i := temp / 10, i - 1;
    }
    s := a[..];
  }

  // ----- fields

  /** The fields of a line. */
  function Split(s: string): (fs: seq<string>)
    ensures |fs| > 0
  {
    if s == [] then [[]]
    else
      var fs := Split(s[1..]);
      if s[0] == SEP then [[]] + fs else [[s[0]] + fs[0]] + fs[1..]
  }

  lemma {:induction false} SplitAppend(a: string, b: string)
    ensures Split(a + [SEP] + b) == Split(a) + Split(b)
  {
    hide Split;
    if a == [] {
      assert a + [SEP] + b == [SEP] + b;
      SplitFirst(SEP, b);
      SplitNone();
    } else {
      assert a + [SEP] + b == [a[0]] + (a[1..] + [SEP] + b);
      SplitAppend(a[1..], b);
      SplitFirst(a[0], a[1..]);
      SplitFirst(a[0], a[1..] + [SEP] + b);
      assert a == [a[0]] + a[1..];
      Carry(a[0], Split(a[1..]), Split(b));
    }
  }

  lemma SplitNone()
    ensures Split([]) == [[]]
  {
  }

  lemma SplitFirst(c: char, s: string)
    ensures Split([c] + s) == if c == SEP then [[]] + Split(s) else [[c] + Split(s)[0]] + Split(s)[1..]
  {
    assert ([c] + s)[1..] == s;
  }

  lemma Carry(c: char, fs: seq<string>, gs: seq<string>)
    requires fs != []
    ensures [[c] + (fs + gs)[0]] + (fs + gs)[1..] == [[c] + fs[0]] + fs[1..] + gs
    ensures [[]] + (fs + gs) == [[]] + fs + gs
  {
  }

  lemma {:induction false} SplitClean(a: string)
    ensures SEP !in a ==> Split(a) == [a]
    ensures forall f <- Split(a) :: SEP !in f
  {
    if a != [] {
      SplitClean(a[1..]);
      assert SEP !in a ==> a == [a[0]] + a[1..];
    }
  }

  function PasswordText(u: User): (s: string) {
    if u.password.None? then [] else u.password.value
  }

  /** The line that writeuser composes. */
  function Encode(u: User): (s: string) {
    u.username + [SEP] + (PasswordText(u) + [SEP] +
                          (Digits(u.uid) + [SEP] + (Digits(u.gid) + [SEP] + (u.fullname + [SEP] + u.homedir))))
  }

  /** The record that user() reads from the first six fields. */
  function FromFields(fs: seq<string>): (u: User)
    requires |fs| >= 6
  {
    User(fs[0], if fs[1] == [] then None else Some(fs[1]), Value(Leading(fs[2])), Value(Leading(fs[3])), fs[4], fs[5])
  }

  function Decode(line: string): (u: User)
    requires |Split(line)| >= 6
  {
    FromFields(Split(line))
  }

  lemma EncodeFields(u: User)
    ensures Split(Encode(u)) ==
            Split(u.username) +
            (Split(PasswordText(u)) + ([Digits(u.uid)] + ([Digits(u.gid)] + (Split(u.fullname) + Split(u.homedir)))))
    ensures |Split(Encode(u))| >= 6
  {
    hide Split, Digits;
    var e5 := u.fullname + [SEP] + u.homedir;
    var e4 := Digits(u.gid) + [SEP] + e5;
    var e3 := Digits(u.uid) + [SEP] + e4;
    var e2 := PasswordText(u) + [SEP] + e3;
    SplitAppend(u.fullname, u.homedir);
    SplitAppend(Digits(u.gid), e5);
    SplitAppend(Digits(u.uid), e4);
    SplitAppend(PasswordText(u), e3);
    SplitAppend(u.username, e2);
    SplitClean(Digits(u.uid));
    SplitClean(Digits(u.gid));
  }

  predicate NoSep(u: User) {
    SEP !in u.username && SEP !in PasswordText(u) && SEP !in u.fullname && SEP !in u.homedir
  }

  lemma AllDigits(n: nat)
    ensures Leading(Digits(n)) == Digits(n) && Value(Leading(Digits(n))) == n
  {
    LeadingIs(Digits(n), |Digits(n)|);
    ValueDigits(n);
  }

  /** A written record is read back, exactly when no field has a colon and a password that is
      there is not empty. */
  lemma RoundTrip(u: User)
    ensures |Split(Encode(u))| >= 6
    ensures Decode(Encode(u)) == u <==> NoSep(u) && u.password != Some([])
  {
    hide Split, Digits, Encode, Leading, Value;
    EncodeFields(u);
    if NoSep(u) {
      SplitClean(u.username);
      SplitClean(PasswordText(u));
      SplitClean(u.fullname);
      SplitClean(u.homedir);
      AllDigits(u.uid);
      AllDigits(u.gid);
    }
    SplitClean(Encode(u));
    var v := Decode(Encode(u));
    assert NoSep(v) && v.password != Some([]);
  }

  /** What user() makes of a line. None is a line with too few fields, behind whose end it
      goes on reading. */
  function Record(line: string): (r: Option<User>) {
    if |Split(Text(line))| < 6 then None else Some(Decode(Text(line)))
  }

  /** user(): six segments, each up to the next colon or the end. */
  method ParseUser(line: CString) returns (r: Option<User>)
    ensures r == Record(line)
  {
    hide Split, Leading, Value, Text;
    var u := User([], None, 0, 0, [], []);
    var segment := 0;
    var i: nat := 0;
    ghost var fs := Split(line);
    assert line[0..] == line;
    while segment < 6
      invariant 0 <= segment <= 6 && segment <= |fs|
      invariant segment < |fs| ==> i <= |line| && Split(line[i..]) == fs[segment..]
      invariant segment == |fs| ==> i > |line|
      invariant segment > 0 ==> u.username == fs[0]
      invariant u.password == if segment > 1 && fs[1] != [] then Some(fs[1]) else None
      invariant segment > 2 ==> u.uid == Value(Leading(fs[2]))
      invariant segment > 3 ==> u.gid == Value(Leading(fs[3]))
      invariant segment > 4 ==> u.fullname == fs[4]
      invariant segment > 5 ==> u.homedir == fs[5]
    {
      if i > |line| {
        return None;
      }
      var text := Segment(line, i);
      assert text == fs[segment];
      if segment == 0 {
        u := u.(username := text);
      }
      if segment == 1 && |text| > 0 {
        u := u.(password := Some(text));
      }
      if segment == 2 {
        var n := Atoi(text);
        u := u.(uid := n);
      }
      if segment == 3 {
        var n := Atoi(text);
        u := u.(gid := n);
      }
      if segment == 4 {
        u := u.(fullname := text);
      }
      if segment == 5 {
        u := u.(homedir := text);
      }
      i := i + |text| + 1;
      segment := segment + 1;
    }
    r := Some(u);
  }

  /** The characters up to the next colon, which strchr looks for. */
  method Segment(line: CString, i: nat) returns (text: CString)
    requires i <= |line|
    ensures var fs := Split(line[i..]);
            && text == fs[0] && i + |text| <= |line|
            && (|fs| > 1 <==> i + |text| < |line|)
            && (|fs| > 1 ==> Split(line[i + |text| + 1..]) == fs[1..])
  {
    var k := i;
    while CharAt(line, k) != NUL && CharAt(line, k) != SEP
      invariant i <= k <= |line| && SEP !in line[i..k]
      decreases |line| - k
    {
      assert line[i..k + 1] == line[i..k] + [line[k]];
      k := k + 1;
    }
    text := line[i..k];
    SplitClean(text);
    if k < |line| {
      assert line[i..] == text + [SEP] + line[k + 1..];
      SplitAppend(text, line[k + 1..]);
    } else {
      assert line[i..] == text;
    }
  }

  lemma NoNewline(n: nat)
    ensures NL !in Digits(n) && NUL !in Digits(n)
  {
  }

  /** The fields are strings of the original: no NUL in them. */
  predicate Terminated(u: User) {
    NUL !in u.username && NUL !in PasswordText(u) && NUL !in u.fullname && NUL !in u.homedir
  }

  lemma EncodeTerminated(u: User)
    requires Terminated(u)
    ensures NUL !in Encode(u)
  {
    hide Digits;
    NoNewline(u.uid);
    NoNewline(u.gid);
  }

  /** A colon in the password moves the fields behind it: the uid that is read is not the
      one that was written. */
  lemma ColonInPassword(fullname: CString, homedir: CString)
    ensures var v := Record(Encode(User("bob", Some("x:0:0:b:/"), 1002, 1002, fullname, homedir)));
            v.Some? && v.value.username == "bob" && v.value.uid == 0
  {
    hide Split, Digits, Encode;
    var u := User("bob", Some("x:0:0:b:/"), 1002, 1002, fullname, homedir);
    EncodeFields(u);
    EncodeTerminated(u);
    SplitClean("bob");
    SplitClean("x");
    SplitClean("0");
    assert "x:0:0:b:/" == "x" + [SEP] + ("0" + [SEP] + "0:b:/");
    SplitAppend("x", "0" + [SEP] + "0:b:/");
    SplitAppend("0", "0:b:/");
    AllDigits(0);
    DigitsOfZero();
  }

  /** A colon in the name does the same: the name and the uid that are read are others. */
  lemma ColonInName(fullname: CString, homedir: CString)
    ensures var v := Record(Encode(User("root:x", None, 1002, 1002, fullname, homedir)));
            v.Some? && v.value.username == "root" && v.value.uid == 0
  {
    hide Split, Digits, Encode;
    var u := User("root:x", None, 1002, 1002, fullname, homedir);
    EncodeFields(u);
    EncodeTerminated(u);
    SplitClean("root");
    SplitClean("x");
    assert "root:x" == "root" + [SEP] + "x";
    SplitAppend("root", "x");
    SplitNone();
  }

  lemma DigitsOfZero()
    ensures Digits(0) == "0"
  {
  }

  /** An empty password is read as none. */
  lemma EmptyPassword(u: User)
    requires NoSep(u) && Terminated(u) && u.password == Some([])
    ensures Record(Encode(u)) == Some(u.(password := None))
  {
    hide Digits, Split, Decode;
    assert Encode(u) == Encode(u.(password := None));
    EncodeTerminated(u);
    RoundTrip(u.(password := None));
  }

  // ----- writing a record

  /** getuserlength. */
  method GetUserLength(u: User) returns (n: nat)
    ensures n == |Encode(u)|
  {
    n := |u.username| + 2;
    if u.password.Some? {
      n := n + |u.password.value|;
    }
    var d := DigitCount(u.uid);
    n := n + d + 1;
    d := DigitCount(u.gid);
    n := n + d + 1;
    n := n + |u.fullname| + 1;
    n := n + |u.homedir|;
  }

  method Put(line: array<char>, i: nat, s: string) returns (j: nat)
    requires i + |s| <= line.Length
    modifies line
    ensures j == i + |s| && line[..j] == old(line[..i]) + s
  {
    j := i;
    while j < i + |s|
      invariant i <= j <= i + |s| && line[..j] == old(line[..i]) + s[..j - i]
    {
      line[j] := s[j - i];
      j := j + 1;
      assert line[..j] == line[..j - 1] + [line[j - 1]];
    }
    assert s[..j - i] == s;
  }

  /** A field and its colon. */
  method PutField(line: array<char>, i: nat, s: string, ghost done: string) returns (j: nat)
    requires i + |s| < line.Length && line[..i] == done
    modifies line
    ensures j == i + |s| + 1 && line[..j] == done + s + [SEP]
  {
    j := Put(line, i, s);
    line[j] := SEP;
    j := j + 1;
    assert line[..j] == line[..j - 1] + [SEP];
  }

  /** The part of writeuser that fills the line: it fits exactly. */
  method Compose(u: User) returns (line: array<char>)
    ensures fresh(line) && line[..] == Encode(u)
  {
    hide Digits, Encode;
    var n := GetUserLength(u);
    EncodeParts(u);
    line := new char[n];
    var i := PutField(line, 0, u.username, []);
    ghost var done := [] + u.username + [SEP];
    var pw := if u.password.Some? then u.password.value else [];
    i := PutField(line, i, pw, done);
    done := done + pw + [SEP];
    var d := Decimal(u.uid);
    i := PutField(line, i, d, done);
    done := done + d + [SEP];
    d := Decimal(u.gid);
    i := PutField(line, i, d, done);
    done := done + d + [SEP];
    i := PutField(line, i, u.fullname, done);
    done := done + u.fullname + [SEP];
    i := Put(line, i, u.homedir);
    assert line[..i] == line[..];
  }

  lemma EncodeParts(u: User)
    ensures |Encode(u)| == |u.username| + |PasswordText(u)| + |Digits(u.uid)| + |Digits(u.gid)| + |u.fullname| +
            |u.homedir| + 5
    ensures Encode(u) ==
            [] + u.username + [SEP] + PasswordText(u) + [SEP] + Digits(u.uid) + [SEP] + Digits(u.gid) + [SEP] +
              u.fullname + [SEP] + u.homedir
  {
    hide Digits;
  }

  // ----- a file of lines

  function Pre(lines: seq<string>, k: nat): (s: string)
    requires k <= |lines|
  {
    if k == 0 then [] else Pre(lines, k - 1) + lines[k - 1] + [NL]
  }

  function Post(lines: seq<string>, k: nat): (s: string)
    requires k <= |lines|
    decreases |lines| - k
  {
    if k == |lines| then [] else [NL] + lines[k] + Post(lines, k + 1)
  }

  /** Newlines stand between lines, not after the last. */
  function Join(lines: seq<string>): (s: string)
    requires lines != []
  {
    lines[0] + Post(lines, 1)
  }

  lemma {:induction false} JoinAt(lines: seq<string>, k: nat)
    requires k < |lines|
    ensures Join(lines) == Pre(lines, k) + lines[k] + Post(lines, k + 1)
  {
    if k == 0 {
      assert [] + lines[0] + Post(lines, 1) == Join(lines);
    } else {
      JoinAt(lines, k - 1);
      assert Pre(lines, k - 1) + lines[k - 1] + ([NL] + lines[k] + Post(lines, k + 1))
          == Pre(lines, k - 1) + lines[k - 1] + [NL] + lines[k] + Post(lines, k + 1);
    }
  }

  lemma {:induction false} PreSame(lines: seq<string>, lines': seq<string>, k: nat)
    requires k <= |lines| && k <= |lines'| && forall i | 0 <= i < k :: lines'[i] == lines[i]
    ensures Pre(lines', k) == Pre(lines, k)
  {
    if k > 0 {
      PreSame(lines, lines', k - 1);
    }
  }

  lemma {:induction false} PostSame(lines: seq<string>, lines': seq<string>, k: nat)
    requires k <= |lines| == |lines'| && forall i | k <= i < |lines| :: lines'[i] == lines[i]
    ensures Post(lines', k) == Post(lines, k)
    decreases |lines| - k
  {
    if k < |lines| {
      PostSame(lines, lines', k + 1);
    }
  }

  lemma {:induction false} PostMore(lines: seq<string>, line: string, k: nat)
    requires k <= |lines|
    ensures Post(lines + [line], k) == Post(lines, k) + ([NL] + line)
    decreases |lines| - k
  {
    if k == |lines| {
      assert Post(lines + [line], k + 1) == [];
    } else {
      PostMore(lines, line, k + 1);
      assert [NL] + lines[k] + (Post(lines, k + 1) + ([NL] + line)) == [NL] + lines[k] + Post(lines, k + 1) +
             ([NL] + line);
    }
  }

  /** The characters up to the first newline. */
  function FirstLine(s: string): (f: string)
    ensures f <= s && NL !in f && (|f| < |s| ==> s[|f|] == NL)
  {
    if s == [] || s[0] == NL then [] else [s[0]] + FirstLine(s[1..])
  }

  /** The lines that getline delivers, one after the other. */
  function ReadLines(s: string): (lines: seq<string>)
    ensures lines == [] <==> s == []
    ensures forall k | 0 <= k < |lines| :: NL !in lines[k]
  {
    if s == [] then []
    else
      var f := FirstLine(s);
      [f] + if |f| < |s| then ReadLines(s[|f| + 1..]) else []
  }

  /** What is left to read at an offset. */
  function Rest(data: string, offset: nat): (lines: seq<string>) {
    if offset >= |data| then [] else ReadLines(data[offset..])
  }

  /** The next line from `offset` on, and the offset after it. */
  method GetLine(data: string, offset: nat) returns (r: Option<string>, next: nat)
    ensures r.None? <==> offset >= |data|
    ensures r.None? ==> next == offset
    ensures r.Some? ==>
      next == offset + |r.value| + 1 <= |data| + 1 && Rest(data, offset) == [r.value] + Rest(data, next)
  {
    hide Rest;
    if offset >= |data| {
      return None, offset;
    }
    var k := offset;
    while k < |data| && data[k] != NL
      invariant offset <= k <= |data| && NL !in data[offset..k]
    {
      assert data[offset..k + 1] == data[offset..k] + [data[k]];
      k := k + 1;
    }
    RestFirst(data, offset, k);
    r, next := Some(data[offset..k]), k + 1;
  }

  lemma RestFirst(data: string, offset: nat, k: nat)
    requires offset <= k <= |data| && offset < |data| && NL !in data[offset..k] && (k < |data| ==> data[k] == NL)
    ensures Rest(data, offset) == [data[offset..k]] + Rest(data, k + 1)
  {
    hide ReadLines;
    if k < |data| {
      assert data[offset..] == data[offset..k] + [NL] + data[k + 1..];
      ReadFirst(data[offset..k], data[k + 1..]);
    } else {
      assert data[offset..] == data[offset..k];
      ReadFirst(data[offset..k], []);
    }
  }

  lemma IsFirstLine(s: string, f: string)
    requires f <= s && NL !in f && (|f| < |s| ==> s[|f|] == NL)
    ensures FirstLine(s) == f
  {
    var g := FirstLine(s);
    assert forall i | 0 <= i < |f| :: f[i] in f && s[i] != NL;
    assert forall i | 0 <= i < |g| :: g[i] in g && s[i] != NL;
    assert |g| == |f|;
  }

  lemma ReadFirst(f: string, rest: string)
    requires NL !in f
    ensures ReadLines(f + [NL] + rest) == [f] + ReadLines(rest)
    ensures f != [] ==> ReadLines(f) == [f]
  {
    var s := f + [NL] + rest;
    IsFirstLine(s, f);
    assert s[|f| + 1..] == rest;
    IsFirstLine(f, f);
  }

  /** Lines are read back from the file they make up, exactly when no line has a newline in it
      and the last is not empty. */
  lemma ReadJoin(lines: seq<string>)
    requires lines != []
    ensures ReadLines(Join(lines)) == lines
        <==> lines[|lines| - 1] != [] && forall k | 0 <= k < |lines| :: NL !in lines[k]
  {
    hide ReadLines;
    if forall k | 0 <= k < |lines| :: NL !in lines[k] {
      ReadFrom(lines, 0);
    }
  }

  /** How many lines a reader sees. */
  function Visible(lines: seq<string>): (n: nat)
    requires lines != []
    ensures |lines| - 1 <= n <= |lines|
  {
    if lines[|lines| - 1] == [] then |lines| - 1 else |lines|
  }

  lemma {:induction false} ReadFrom(lines: seq<string>, k: nat)
    requires k < |lines| && forall i | 0 <= i < |lines| :: NL !in lines[i]
    ensures ReadLines(lines[k] + Post(lines, k + 1)) == lines[k..Visible(lines)]
    decreases |lines| - k
  {
    hide ReadLines;
    if k + 1 < |lines| {
      ReadFrom(lines, k + 1);
      var rest := lines[k + 1] + Post(lines, k + 2);
      assert lines[k] + ([NL] + lines[k + 1] + Post(lines, k + 2)) == lines[k] + [NL] + rest;
      ReadFirst(lines[k], rest);
      assert lines[k..Visible(lines)] == [lines[k]] + lines[k + 1..Visible(lines)];
    } else {
      ReadFirst(lines[k], []);
      assert lines[k] + [] == lines[k];
    }
  }

  lemma PostFirst(lines: seq<string>, k: nat)
    requires k <= |lines|
    ensures if k == |lines| then Post(lines, k) == [] else Post(lines, k) != [] && Post(lines, k)[0] == NL
  {
  }

  function Min(a: int, b: int): (m: int) {
    if a < b then a else b
  }

  /** A write into a file at `pos`. */
  function Overwrite(data: string, pos: nat, s: string): (r: string)
    requires pos <= |data|
  {
    data[..pos] + s + if pos + |s| < |data| then data[pos + |s|..] else []
  }

  /** Copy a file from `offset` to its end into another at `pos`, a buffer at a time. */
  method CopyRest(file: string, offset: nat, temp: string, pos: nat) returns (r: string)
    requires offset <= |file| && pos <= |temp|
    ensures r == Overwrite(temp, pos, file[offset..])
  {
    r := temp;
    var from := offset;
    assert file[offset..from] == [];
    while from < |file|
      invariant offset <= from <= |file| && r == Overwrite(temp, pos, file[offset..from])
    {
      var n := Min(BUFSIZE, |file| - from);
      assert file[offset..from + n] == file[offset..from] + file[from..from + n];
      OverwriteTwice(temp, pos, file[offset..from], file[from..from + n]);
      r, from := Overwrite(r, pos + from - offset, file[from..from + n]), from + n;
    }
    assert file[offset..from] == file[offset..];
  }

  lemma OverwriteTwice(data: string, pos: nat, s: string, t: string)
    requires pos <= |data|
    ensures |Overwrite(data, pos, s)| >= pos + |s|
    ensures Overwrite(Overwrite(data, pos, s), pos + |s|, t) == Overwrite(data, pos, s + t)
  {
  }

  /** Write a file into another at `pos`, a buffer at a time, and cut the other after it. */
  method CopyBack(file: string, pos: nat, temp: string) returns (data: string)
    requires pos <= |file|
    ensures data == file[..pos] + temp
  {
    data := file;
    var done := 0;
    while done < |temp|
      invariant 0 <= done <= |temp| && pos + done <= |data| && data[..pos + done] == file[..pos] + temp[..done]
    {
      var n := Min(BUFSIZE, |temp| - done);
      OverwriteFront(data, pos + done, temp[done..done + n]);
      data := Overwrite(data, pos + done, temp[done..done + n]);
      assert temp[..done + n] == temp[..done] + temp[done..done + n];
      done := done + n;
    }
    assert temp[..done] == temp;
    data := data[..pos + done];
  }

  lemma OverwriteFront(data: string, pos: nat, s: string)
    requires pos <= |data|
    ensures |Overwrite(data, pos, s)| >= pos + |s| && Overwrite(data, pos, s)[..pos + |s|] == data[..pos] + s
  {
  }

  /** The file with a line in the place of the `oldlength` characters before `offset - 1`. */
  function LineChanged(file: string, line: string, offset: nat, oldlength: nat): (data: string)
    requires oldlength < offset <= |file| + 1
  {
    file[..offset - oldlength - 1] + line + if offset < |file| then [NL] + file[offset..] else []
  }

  /** The temporary file of changeline, which is opened without being cut: `stale` is what it
      held before. */
  function TempFile(file: string, line: string, offset: nat, stale: string): (temp: string) {
    Overwrite(stale, 0, line + if offset < |file| then [NL] + file[offset..] else [])
  }

  /** A file set to a size by trim; `behind` is what the disk holds behind its end. */
  function Cut(file: string, size: nat, behind: nat -> char): (r: string) {
    if size <= |file| then file[..size] else file + seq(size - |file|, i requires 0 <= i < size - |file| => behind(i))
  }

  /** The file after changeline. If it seeks before the beginning, the kernel takes the offset as
      a large number and rejects all writes, but the size is still set. None is a size that
      wraps around. */
  function ChangedFile(file: string, line: string, offset: nat, oldlength: nat, stale: string, behind: nat -> char)
    : (r: Option<string>)
    requires offset <= |file| + 1
  {
    var start, temp := offset - oldlength - 1, TempFile(file, line, offset, stale);
    if start >= 0 then Some(file[..start] + temp)
    else if start + |temp| >= 0 then Some(Cut(file, start + |temp|, behind)) else None
  }

  /** changeline: the line of `oldlength` characters before `offset` is replaced, by way of a
      temporary file. */
  method ChangeLine(file: string, line: string, offset: nat, oldlength: nat, stale: string, behind: nat -> char)
    returns (r: Option<string>, offset': int)
    requires offset <= |file| + 1
    ensures r == ChangedFile(file, line, offset, oldlength, stale, behind)
    ensures offset' == offset - oldlength + |line|
  {
    hide Overwrite, Cut;
    var newsize := offset - oldlength - 1;
    var temp := Overwrite(stale, 0, line);
    OverwriteTwice(stale, 0, line, [NL]);
    if offset < |file| {
      temp := Overwrite(temp, |line|, [NL]);
      OverwriteTwice(stale, 0, line + [NL], file[offset..]);
      temp := CopyRest(file, offset, temp, |line| + 1);
      assert line + [NL] + file[offset..] == line + ([NL] + file[offset..]);
    } else {
      assert line + [] == line;
    }
    offset' := newsize + |line| + 1;
    if newsize >= 0 {
      var data := CopyBack(file, newsize, temp);
      r := Some(data);
    } else if newsize + |temp| >= 0 {
      r := Some(Cut(file, newsize + |temp|, behind));
    } else {
      r := None;
    }
  }

  /** A temporary file that was there and was longer leaves its tail at the end. */
  lemma OldTemp(file: string, line: string, offset: nat, oldlength: nat, stale: string, behind: nat -> char)
    requires oldlength < offset <= |file| + 1
    ensures var start, changed := offset - oldlength - 1, LineChanged(file, line, offset, oldlength);
            ChangedFile(file, line, offset, oldlength, stale, behind)
            == Some(changed + if |changed| - start < |stale| then stale[|changed| - start..] else [])
  {
    var start, changed := offset - oldlength - 1, LineChanged(file, line, offset, oldlength);
    var temp := line + if offset < |file| then [NL] + file[offset..] else [];
    assert changed == file[..start] + temp;
    var tail := if |temp| < |stale| then stale[|temp|..] else [];
    assert Overwrite(stale, 0, temp) == temp + tail;
    assert file[..start] + (temp + tail) == changed + tail;
  }

  /** If the old line would begin before the file, the file is not written at all: it only gets
      the size that the new line and what follows it would have given it. */
  lemma EarlyLine(file: string, line: string, offset: nat, oldlength: nat, behind: nat -> char)
    requires offset <= oldlength && offset <= |file| + 1
    ensures var r := ChangedFile(file, line, offset, oldlength, [], behind);
            var size := |line| + (if offset < |file| then |file| else offset - 1) - oldlength;
            && (r.Some? <==> size >= 0)
            && (r.Some? ==> |r.value| == size && forall i | 0 <= i < size && i < |file| :: r.value[i] == file[i])
  {
  }

  /** With a new one the line takes the place of the old line. */
  lemma NewTemp(file: string, line: string, offset: nat, oldlength: nat, behind: nat -> char)
    requires oldlength < offset <= |file| + 1
    ensures ChangedFile(file, line, offset, oldlength, [], behind) == Some(LineChanged(file, line, offset, oldlength))
  {
    OldTemp(file, line, offset, oldlength, [], behind);
    hide ChangedFile;
    var changed := LineChanged(file, line, offset, oldlength);
    assert |changed| >= offset - oldlength - 1 && changed + [] == changed;
  }

  /** Exactly one line is replaced, unless the line that follows is empty and the last: then
      its newline is lost. */
  lemma OneLineChanged(lines: seq<string>, k: nat, line: string)
    requires k < |lines|
    ensures var file, offset := Join(lines), |Pre(lines, k + 1)|;
            && |lines[k]| < offset <= |file| + 1 && offset - |lines[k]| - 1 == |Pre(lines, k)|
            && (LineChanged(file, line, offset, |lines[k]|) == Join(lines[k := line])
                <==> !(k + 2 == |lines| && lines[k + 1] == []))
  {
    hide Post;
    var file, offset, lines' := Join(lines), |Pre(lines, k + 1)|, lines[k := line];
    JoinAt(lines, k);
    JoinAt(lines', k);
    PreSame(lines, lines', k);
    PostSame(lines, lines', k + 1);
    PostFirst(lines, k + 1);
    assert file[..|Pre(lines, k)|] == Pre(lines, k);
    var post := Post(lines, k + 1);
    assert |file| == offset - 1 + |post|;
    if k + 1 < |lines| {
      PostLong(lines, k + 1);
      assert file[offset - 1..] == post;
      if offset < |file| {
        assert post == [NL] + file[offset..];
      }
    }
  }

  /** The line after the changed one is lost when it is empty and the last. */
  lemma LastLineLost()
    ensures Join(["a", ""]) == "a\n" && LineChanged("a\n", "b", 2, 1) == "b" && Join(["b", ""]) == "b\n"
  {
    assert Post(["a", ""], 1) == "\n" + "" + Post(["a", ""], 2);
    assert Post(["b", ""], 1) == "\n" + "" + Post(["b", ""], 2);
  }

  lemma PostLong(lines: seq<string>, k: nat)
    requires k < |lines|
    ensures Post(lines, k) == [NL] + Post(lines, k)[1..]
    ensures |Post(lines, k)| == 1 <==> k + 1 == |lines| && lines[k] == []
  {
  }
}

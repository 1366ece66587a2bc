/** Node names, cluster uuids and host names are strings. One strict total order on strings stands for
    both `localeCompare` and the default array sort of the source, which agree on being total. */
module Names {

  /** Lexicographic order on strings. */
  predicate Leq(a: string, b: string) {
    if a == [] then true
    else if b == [] then false
    else if a[0] != b[0] then a[0] < b[0]
    else Leq(a[1..], b[1..])
  }

  lemma {:induction false} LeqTotal(a: string, b: string)
    ensures Leq(a, b) || Leq(b, a)
  {
    if a != [] && b != [] && a[0] == b[0] {
      LeqTotal(a[1..], b[1..]);
    }
  }

  lemma {:induction false} LeqAntisymmetric(a: string, b: string)
    requires Leq(a, b) && Leq(b, a)
    ensures a == b
  {
    if a != [] && b != [] {
      LeqAntisymmetric(a[1..], b[1..]);
      assert a == [a[0]] + a[1..] && b == [b[0]] + b[1..];
    }
  }

  lemma {:induction false} LeqTransitive(a: string, b: string, c: string)
    requires Leq(a, b) && Leq(b, c)
    ensures Leq(a, c)
  {
    if a != [] && b != [] && c != [] && a[0] == b[0] == c[0] {
      LeqTransitive(a[1..], b[1..], c[1..]);
    }
  }

  /** The three laws for every string at once. */
  lemma LeqIsOrder()
    ensures forall a, b :: Leq(a, b) || Leq(b, a)
    ensures forall a, b :: Leq(a, b) && Leq(b, a) ==> a == b
    ensures forall a, b, c :: Leq(a, b) && Leq(b, c) ==> Leq(a, c)
  {
    forall a, b ensures Leq(a, b) || Leq(b, a) { LeqTotal(a, b); }
    forall a, b | Leq(a, b) && Leq(b, a) ensures a == b { LeqAntisymmetric(a, b); }
    forall a, b, c | Leq(a, b) && Leq(b, c) ensures Leq(a, c) { LeqTransitive(a, b, c); }
  }

  // ----- host name syntax -----

  predicate Alphanumeric(c: char) {
    'a' <= c <= 'z' || 'A' <= c <= 'Z' || '0' <= c <= '9'
  }

  predicate IsLabel(l: string) {
    && 1 <= |l| <= 63
    && Alphanumeric(l[0]) && Alphanumeric(l[|l| - 1])
    && forall c <- l :: Alphanumeric(c) || c == '-'
  }

  /** The dot-separated pieces of a string; never empty. */
  function Labels(s: string): (r: seq<string>)
    ensures r != []
  {
    if s == [] then [[]]
    else
      var rest := Labels(s[1..]);
      if s[0] == '.' then [[]] + rest else [[s[0]] + rest[0]] + rest[1..]
  }

  predicate HasValidLabels(s: string) {
    '.' in s && forall l <- Labels(s) :: IsLabel(l)
  }

  predicate IsFqdn(s: string) {
    |s| <= 253 && HasValidLabels(s)
  }

  /** A dotted quad, which has the shape of a host name but is an address. */
  predicate IsIpv4(s: string) {
    |Labels(s)| == 4 && forall l <- Labels(s) :: IsOctet(l)
  }

  predicate IsOctet(l: string) {
    && 1 <= |l| <= 3
    && (forall c <- l :: '0' <= c <= '9')
    && (|l| > 1 ==> l[0] != '0')
    && (|l| == 3 ==> Leq(l, "255"))
  }

  predicate IsHostName(s: string) {
    IsFqdn(s) && !IsIpv4(s)
  }

  predicate IsRoutedLabel(l: string) {
    l != [] && Alphanumeric(l[0]) && Alphanumeric(l[|l| - 1]) && forall c <- l :: Alphanumeric(c) || c == '-'
  }

  /** The looser syntax of routed host names, whose labels may be of any length. */
  predicate IsRoutedName(s: string) {
    && |s| <= 253 && '.' in s
    && forall l <- Labels(s) :: IsRoutedLabel(l)
  }

  // ----- host names, said of their labels -----

  function Joined(labels: seq<string>): string
    requires labels != []
  {
    if |labels| == 1 then labels[0] else labels[0] + "." + Joined(labels[1..])
  }

  lemma {:induction false} LabelsJoin(s: string)
    ensures Joined(Labels(s)) == s && forall l <- Labels(s) :: '.' !in l
  {
    if s != [] {
      LabelsJoin(s[1..]);
      var rest := Labels(s[1..]);
      if s[0] == '.' {
        assert ([[]] + rest)[1..] == rest;
      } else {
        var labels := [[s[0]] + rest[0]] + rest[1..];
        assert labels[1..] == rest[1..];
        assert [s[0]] + (rest[0] + "." + (if |rest| > 1 then Joined(rest[1..]) else ""))
          == labels[0] + "." + (if |rest| > 1 then Joined(rest[1..]) else "");
      }
      assert s == [s[0]] + s[1..];
    }
  }

  /** There is one way to take a name apart at its dots. */
  lemma {:induction false} LabelsUnique(labels: seq<string>)
    requires labels != [] && forall l <- labels :: '.' !in l
    ensures Labels(Joined(labels)) == labels
    decreases |labels|, |labels[0]|
  {
    var s := Joined(labels);
    if labels[0] == [] {
      if |labels| == 1 {
        assert s == [];
      } else {
        LabelsUnique(labels[1..]);
        assert s == "." + Joined(labels[1..]) && s[1..] == Joined(labels[1..]);
      }
    } else {
      var c, tail := labels[0][0], labels[0][1..];
      var shorter := [tail] + labels[1..];
      assert labels[0] in labels && c in labels[0] && forall x <- tail :: x in labels[0];
      assert shorter[1..] == labels[1..];
      LabelsUnique(shorter);
      assert labels[0] == [c] + tail;
      assert s == [c] + Joined(shorter);
      assert s[1..] == Joined(shorter);
    }
  }

  /** A proper label: letters, digits and inner hyphens, at most 63 of them. */
  predicate ProperLabel(l: string) {
    && 1 <= |l| < 64 && l[0] != '-' && l[|l| - 1] != '-'
    && forall c <- l :: c == '-' || 'a' <= c <= 'z' || 'A' <= c <= 'Z' || '0' <= c <= '9'
  }

  predicate ProperLabels(labels: seq<string>) {
    forall l <- labels :: ProperLabel(l)
  }

  lemma ProperLabelExact(l: string)
    ensures IsLabel(l) <==> ProperLabel(l)
  {
    if |l| > 0 {
      assert l[0] in l && l[|l| - 1] in l;
    }
  }

  lemma DotsMakeLabels(s: string)
    ensures '.' in s <==> |Labels(s)| > 1
  {
    LabelsJoin(s);
    if |Labels(s)| > 1 {
      assert s == Labels(s)[0] + "." + Joined(Labels(s)[1..]);
      assert s[|Labels(s)[0]|] == '.';
    } else {
      assert s == Labels(s)[0] && Labels(s)[0] in Labels(s);
    }
  }

  /** A host name is at most 253 characters of at least two proper labels. */
  lemma FqdnExact(s: string)
    ensures IsFqdn(s)
      <==> |s| <= 253 && exists labels: seq<string> :: |labels| >= 2 && ProperLabels(labels) && Joined(labels) == s
  {
    LabelsJoin(s);
    DotsMakeLabels(s);
    forall l ensures IsLabel(l) <==> ProperLabel(l) {
      ProperLabelExact(l);
    }
    if labels: seq<string> :| |labels| >= 2 && ProperLabels(labels) && Joined(labels) == s {
      LabelsUnique(labels);
    }
    if IsFqdn(s) {
      assert ProperLabels(Labels(s));
    }
  }

  /** The number a part of a dotted quad stands for. */
  function Decimal(n: nat): string {
    if n < 10 then [('0' as int + n) as char] else Decimal(n / 10) + [('0' as int + n % 10) as char]
  }

  lemma ThreeDigits(l: string)
    requires |l| == 3 && forall c <- l :: '0' <= c <= '9'
    ensures Leq(l, "255") <==> (l[0] as int - 48) * 100 + (l[1] as int - 48) * 10 + (l[2] as int - 48) <= 255
  {
    assert l[0] in l && l[1] in l && l[2] in l;
    assert l[1..][0] == l[1] && l[1..][1..] == [l[2]] && [l[2]][1..] == [];
    assert "255"[1..] == "55" && "55"[1..] == "5" && "5"[1..] == "";
    assert Leq(l[1..], "55") <==> l[1] < '5' || (l[1] == '5' && Leq([l[2]], "5"));
  }

  lemma DecimalShape(n: nat)
    requires n < 1000
    ensures var d := Decimal(n);
      && |d| == (if n < 10 then 1 else if n < 100 then 2 else 3) && (forall c <- d :: '0' <= c <= '9')
      && (n >= 10 ==> d[0] != '0')
      && (|d| == 3 ==> (d[0] as int - 48) * 100 + (d[1] as int - 48) * 10 + (d[2] as int - 48) == n)
  {
    if n >= 100 {
      assert Decimal(n / 10) == Decimal(n / 100) + [('0' as int + n / 10 % 10) as char];
    }
  }

  /** A part of a dotted quad: the decimal text of a number up to 255. */
  ghost predicate SmallNumber(l: string) {
    exists n: nat :: n <= 255 && Decimal(n) == l
  }

  lemma DecimalIsOctet(n: nat)
    requires n <= 255
    ensures IsOctet(Decimal(n)) && '.' !in Decimal(n)
  {
    DecimalShape(n);
    if n >= 100 { ThreeDigits(Decimal(n)); }
  }

  lemma TwoDigits(l: string)
    requires |l| == 2 && '1' <= l[0] <= '9' && '0' <= l[1] <= '9'
    ensures Decimal((l[0] as int - 48) * 10 + (l[1] as int - 48)) == l
  {
    var a, b := l[0] as int - 48, l[1] as int - 48;
    assert a > 0 && (10 * a + b) / 10 == a && (10 * a + b) % 10 == b;
    assert Decimal(a) == [l[0]];
    assert l == [l[0]] + [l[1]];
  }

  lemma OctetIsSmall(l: string)
    requires IsOctet(l)
    ensures SmallNumber(l)
  {
    assert forall k :: 0 <= k < |l| ==> l[k] in l;
    if |l| == 1 {
      assert Decimal(l[0] as int - 48) == l;
    } else if |l| == 2 {
      TwoDigits(l);
    } else {
      var n, c := (l[0] as int - 48) * 10 + (l[1] as int - 48), l[2] as int - 48;
      ThreeDigits(l);
      TwoDigits(l[..2]);
      assert n >= 10 && (10 * n + c) / 10 == n && (10 * n + c) % 10 == c;
      assert Decimal(10 * n + c) == Decimal(n) + [l[2]];
      assert l == l[..2] + [l[2]];
    }
  }

  ghost predicate DottedQuad(s: string) {
    exists parts: seq<string> :: |parts| == 4 && Joined(parts) == s && forall l <- parts :: SmallNumber(l)
  }

  /** A node identity is a host name that is no address of four numbers up to 255. */
  lemma HostNameExact(s: string)
    ensures IsHostName(s) <==> IsFqdn(s) && !DottedQuad(s)
  {
    LabelsJoin(s);
    if IsIpv4(s) {
      forall l <- Labels(s) ensures SmallNumber(l) {
        OctetIsSmall(l);
      }
    }
    if parts: seq<string> :| |parts| == 4 && Joined(parts) == s && forall l <- parts :: SmallNumber(l) {
      forall l <- parts ensures '.' !in l && IsOctet(l) {
        var n: nat :| n <= 255 && Decimal(n) == l;
        DecimalIsOctet(n);
      }
      LabelsUnique(parts);
    }
  }

  /** A routed name has at least two labels of any length, of letters, digits and inner hyphens. */
  lemma RoutedNameExact(s: string)
    ensures IsRoutedName(s) <==>
      && |s| <= 253
      && exists labels: seq<string> :: |labels| >= 2 && Joined(labels) == s && forall l <- labels :: LooseLabel(l)
  {
    LabelsJoin(s);
    DotsMakeLabels(s);
    forall l ensures IsRoutedLabel(l) <==> LooseLabel(l) {
      if |l| > 0 {
        assert l[0] in l && l[|l| - 1] in l;
      }
    }
    if labels: seq<string> :| |labels| >= 2 && Joined(labels) == s && forall l <- labels :: LooseLabel(l) {
      LabelsUnique(labels);
    }
    if IsRoutedName(s) {
      assert forall l <- Labels(s) :: LooseLabel(l);
    }
  }

  predicate LooseLabel(l: string) {
    && |l| > 0 && l[0] != '-' && l[|l| - 1] != '-'
    && forall c <- l :: c == '-' || 'a' <= c <= 'z' || 'A' <= c <= 'Z' || '0' <= c <= '9'
  }

  /** A host name holds only letters, digits, hyphens and dots. */
  lemma {:induction false} LabelCharacters(s: string, c: char)
    requires c in s && c != '.'
    requires forall l <- Labels(s) :: IsLabel(l)
    ensures Alphanumeric(c) || c == '-'
  {
    LabelsCover(s, c);
  }

  lemma {:induction false} LabelsCover(s: string, c: char)
    requires c in s && c != '.'
    ensures exists l <- Labels(s) :: c in l
  {
    var rest := Labels(s[1..]);
    if s[0] == c {
      assert Labels(s)[0] == [s[0]] + rest[0];
      assert c in Labels(s)[0];
    } else {
      assert s == [s[0]] + s[1..];
      LabelsCover(s[1..], c);
      var k :| 0 <= k < |rest| && c in rest[k];
      if s[0] == '.' {
        assert Labels(s)[k + 1] == rest[k];
      } else if k == 0 {
        assert Labels(s)[0] == [s[0]] + rest[0];
        assert c in Labels(s)[0];
      } else {
        assert Labels(s)[k] == rest[1..][k - 1];
      }
    }
  }

  /** A letter and a dot make a host name. */
  lemma ShortName(c: char)
    requires Alphanumeric(c)
    ensures IsHostName([c, '.', 'x']) && IsRoutedName([c, '.', 'x'])
  {
    var x, dotted, name := ['x'], ['.', 'x'], [c, '.', 'x'];
    assert Labels([]) == [[]];
    assert x[1..] == [] && dotted[1..] == x && name[1..] == dotted;
    assert Labels(x) == [['x']] by { assert ['x'] + [] == ['x']; }
    assert Labels(dotted) == [[], ['x']];
    var labels := Labels(name);
    assert labels == [[c], ['x']] by { assert c == '.' || [c] + [] == [c]; }
    assert name[1] == '.';
    assert forall l <- labels :: IsLabel(l);
  }
}

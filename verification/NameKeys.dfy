/** The name normaliser shared by sanctions records and screening, on UTF-16 code units. */
module NameKeys {

  newtype Unit = u: int | 0 <= u < 0x10000

  type Text = seq<Unit>

  const SPACE: Unit := 0x20

  /** JavaScript's `\s`: WhiteSpace and LineTerminator of ECMA-262, which `trim` strips as well. */
  predicate IsSpace(u: Unit) {
    (0x09 <= u <= 0x0D) || u == 0x20 || u == 0xA0 || u == 0x1680 || (0x2000 <= u <= 0x200A) ||
    u == 0x2028 || u == 0x2029 || u == 0x202F || u == 0x205F || u == 0x3000 || u == 0xFEFF
  }

  /** The 25 units ECMA-262 lists: WhiteSpace in section 12.2 (with Unicode's Zs) and LineTerminator in
      section 12.3. */
  lemma SpacesAreListed(u: Unit)
    ensures IsSpace(u)
            <==> u in {0x0009, 0x000B, 0x000C, 0x0020, 0x00A0, 0xFEFF} + {0x000A, 0x000D, 0x2028, 0x2029}
                      + {0x1680, 0x2000, 0x2001, 0x2002, 0x2003, 0x2004, 0x2005, 0x2006, 0x2007, 0x2008, 0x2009, 0x200A}
                      + {0x202F, 0x205F, 0x3000}
  {
  }

  predicate IsKeyUnit(u: Unit) {
    (0x61 <= u <= 0x7A) || (0x30 <= u <= 0x39)
  }

  /** `toLowerCase` as far as the normaliser can tell: A to Z, the Kelvin sign (k) and the dotted
      capital I (i and a combining dot) gain key units; every other unit lowers to units that are
      neither key units nor spaces, or is one already, and stands for itself here. */
  function Lower(u: Unit): Text {
    if 0x41 <= u <= 0x5A then [u + 0x20]
    else if u == 0x212A then [0x6B]
    else if u == 0x130 then [0x69, 0x307]
    else [u]
  }

  function LowerCase(s: Text): Text {
    if s == [] then [] else Lower(s[0]) + LowerCase(s[1..])
  }

  /** `.replace(/[^a-z0-9\s]/g, '')` */
  function KeepKeyUnits(s: Text): Text {
    if s == [] then [] else Kept(s[0]) + KeepKeyUnits(s[1..])
  }

  function Kept(u: Unit): Text { if IsKeyUnit(u) || IsSpace(u) then [u] else [] }

  function SkipSpaces(s: Text): (r: Text)
    ensures |r| <= |s| && (r == [] || !IsSpace(r[0]))
  {
    if s != [] && IsSpace(s[0]) then SkipSpaces(s[1..]) else s
  }

  /** `.replace(/\s+/g, ' ')` */
  function Collapse(s: Text): Text
    decreases |s|
  {
    if s == [] then []
    else if IsSpace(s[0]) then [SPACE] + Collapse(SkipSpaces(s[1..]))
    else [s[0]] + Collapse(s[1..])
  }

  function TrimEnd(s: Text): Text {
    if s != [] && IsSpace(s[|s| - 1]) then TrimEnd(s[..|s| - 1]) else s
  }

  function Trim(s: Text): Text { TrimEnd(SkipSpaces(s)) }

  /** The key computed when a name is screened. */
  function ScreeningKey(name: Text): Text {
    Trim(Collapse(KeepKeyUnits(LowerCase(name))))
  }

  function Tidy(name: Text): Text { Trim(Collapse(name)) }

  /** `originalName` and `normalizedName` of a sanctions record of that name. */
  function OriginalName(name: Text): Text {
    if |Tidy(name)| <= 1000 then Tidy(name) else Tidy(name)[..1000]
  }

  function StoredKey(name: Text): Text { ScreeningKey(OriginalName(name)) }

  // ---------- One pass instead of three ----------

  /** Where a single left-to-right pass stands: at the start, right after a unit it kept, or after
      spaces it will print as one if another unit follows. */
  datatype At = Start | Word | Gap

  function AfterSpace(at: At): At { if at == Start then Start else Gap }

  function Squeeze(at: At, s: Text): Text
    decreases s
  {
    if s == [] then []
    else if IsSpace(s[0]) then Squeeze(AfterSpace(at), s[1..])
    else (if at == Gap then [SPACE] else []) + [s[0]] + Squeeze(Word, s[1..])
  }

  lemma {:induction false} SqueezeSkips(at: At, s: Text)
    requires at != Word
    ensures Squeeze(at, SkipSpaces(s)) == Squeeze(at, s)
  {
    if s != [] && IsSpace(s[0]) { SqueezeSkips(at, s[1..]); }
  }

  lemma TrimEndKeeps(front: Text, s: Text)
    requires s != [] && !IsSpace(s[0])
    ensures TrimEnd(front + s) == front + TrimEnd(s)
    decreases |s|
  {
    if IsSpace(s[|s| - 1]) {
      assert (front + s)[..|front + s| - 1] == front + s[..|s| - 1];
      TrimEndKeeps(front, s[..|s| - 1]);
    }
  }

  lemma {:induction false} TrimCollapseIsSqueeze(s: Text)
    ensures TrimEnd(Collapse(s)) == Squeeze(Word, s)
    decreases |s|
  {
    if s != [] {
      var c := Collapse(s);
      if IsSpace(s[0]) {
        var rest := SkipSpaces(s[1..]);
        SqueezeSkips(Gap, s[1..]);
        if rest == [] {
          assert c[..|c| - 1] == [];
        } else {
          TrimCollapseIsSqueeze(rest);
          assert Collapse(rest)[0] == rest[0];
          TrimEndKeeps([SPACE], Collapse(rest));
        }
      } else {
        TrimCollapseIsSqueeze(s[1..]);
        TrimEndAfter(s[0], Collapse(s[1..]));
      }
    }
  }

  lemma {:induction false} TrimEndAfter(u: Unit, s: Text)
    requires !IsSpace(u)
    ensures TrimEnd([u] + s) == [u] + TrimEnd(s)
  {
    if s != [] && IsSpace(s[|s| - 1]) {
      assert ([u] + s)[..|s|] == [u] + s[..|s| - 1];
      TrimEndAfter(u, s[..|s| - 1]);
    }
  }

  /** Collapsing then trimming is the one pass. */
  lemma TidyIsSqueeze(s: Text)
    ensures Tidy(s) == Squeeze(Start, s)
  {
    var rest := SkipSpaces(s);
    SqueezeSkips(Start, s);
    TrimCollapseIsSqueeze(rest);
    CollapseSkips(s);
    if rest != [] { assert Squeeze(Start, rest) == Squeeze(Word, rest); }
  }

  lemma CollapseSkips(s: Text)
    ensures SkipSpaces(Collapse(s)) == Collapse(SkipSpaces(s))
  {
    if s != [] && IsSpace(s[0]) {
      var rest := SkipSpaces(s[1..]);
      assert Collapse(s)[1..] == Collapse(rest);
      if rest != [] { assert Collapse(rest)[0] == rest[0]; }
    }
  }

  // ---------- Filtering ----------

  /** Lower-casing and keeping key units and spaces, together. */
  function Fold(s: Text): Text { KeepKeyUnits(LowerCase(s)) }

  lemma Regroup(x: Text, y: Text, z: Text)
    ensures (x + y) + z == x + (y + z)
  {
  }

  lemma KeepCons(u: Unit, s: Text)
    ensures KeepKeyUnits([u] + s) == Kept(u) + KeepKeyUnits(s)
  {
    assert ([u] + s)[1..] == s;
  }

  lemma {:induction false} KeepAppend(a: Text, b: Text)
    ensures KeepKeyUnits(a + b) == KeepKeyUnits(a) + KeepKeyUnits(b)
  {
    if a == [] {
      assert a + b == b;
    } else {
      hide KeepKeyUnits, Kept;
      var u, rest := a[0], a[1..];
      assert a == [u] + rest;
      Regroup([u], rest, b);
      KeepAppend(rest, b);
      KeepCons(u, rest);
      KeepCons(u, rest + b);
      Regroup(Kept(u), KeepKeyUnits(rest), KeepKeyUnits(b));
    }
  }

  lemma LowerCons(u: Unit, s: Text)
    ensures LowerCase([u] + s) == Lower(u) + LowerCase(s)
  {
    assert ([u] + s)[1..] == s;
  }

  lemma {:induction false} LowerAppend(a: Text, b: Text)
    ensures LowerCase(a + b) == LowerCase(a) + LowerCase(b)
  {
    if a == [] {
      assert a + b == b;
    } else {
      hide LowerCase, Lower;
      var u, rest := a[0], a[1..];
      assert a == [u] + rest;
      Regroup([u], rest, b);
      LowerAppend(rest, b);
      LowerCons(u, rest);
      LowerCons(u, rest + b);
      Regroup(Lower(u), LowerCase(rest), LowerCase(b));
    }
  }

  lemma FoldAppend(a: Text, b: Text)
    ensures Fold(a + b) == Fold(a) + Fold(b)
  {
    LowerAppend(a, b);
    KeepAppend(LowerCase(a), LowerCase(b));
  }

  lemma KeepOne(u: Unit)
    ensures KeepKeyUnits([u]) == if IsKeyUnit(u) || IsSpace(u) then [u] else []
  {
    assert [u][1..] == [] && KeepKeyUnits([u]) == Kept(u) + KeepKeyUnits([]);
  }

  lemma FoldOne(u: Unit)
    ensures Fold([u]) == if IsKeyUnit(Lower(u)[0]) || IsSpace(u) then [Lower(u)[0]] else []
  {
    var l := Lower(u);
    assert [u][1..] == [] && LowerCase([u]) == l + LowerCase([]) == l;
    KeepOne(l[0]);
    if u == 0x130 {
      KeepOne(0x307);
      KeepAppend([l[0]], [0x307]);
      assert l == [l[0]] + [0x307];
    } else {
      assert l == [l[0]];
    }
  }

  /** A unit folds to itself if it is a space, and otherwise to at most one key unit. */
  lemma FoldUnit(u: Unit)
    ensures IsSpace(u) ==> Fold([u]) == [u]
    ensures !IsSpace(u) ==> Fold([u]) == [] || (|Fold([u])| == 1 && IsKeyUnit(Fold([u])[0]))
  {
    FoldOne(u);
  }

  lemma FoldCons(s: Text)
    requires s != []
    ensures Fold(s) == Fold([s[0]]) + Fold(s[1..])
  {
    assert s == [s[0]] + s[1..];
    FoldAppend([s[0]], s[1..]);
  }

  lemma SqueezeCons(at: At, u: Unit, s: Text)
    ensures Squeeze(at, [u] + s) == if IsSpace(u) then Squeeze(AfterSpace(at), s)
                                    else (if at == Gap then [SPACE] else []) + [u] + Squeeze(Word, s)
  {
    assert ([u] + s)[1..] == s;
  }

  lemma SqueezeFoldSpace(at: At, s: Text)
    ensures Squeeze(at, Fold([SPACE] + s)) == Squeeze(AfterSpace(at), Fold(s))
  {
    FoldAppend([SPACE], s);
    FoldUnit(SPACE);
    SqueezeCons(at, SPACE, Fold(s));
  }

  /** Texts that squeeze alike still do after the same unit. */
  lemma SqueezeFoldUnit(at: At, u: Unit, s: Text, t: Text)
    requires !IsSpace(u)
    requires Squeeze(at, Fold(s)) == Squeeze(at, Fold(t)) && Squeeze(Word, Fold(s)) == Squeeze(Word, Fold(t))
    ensures Squeeze(at, Fold([u] + s)) == Squeeze(at, Fold([u] + t))
  {
    hide Fold, Squeeze;
    FoldAppend([u], s);
    FoldAppend([u], t);
    FoldUnit(u);
    if Fold([u]) == [] {
      assert Fold([u] + s) == Fold(s) && Fold([u] + t) == Fold(t);
    } else {
      var k := Fold([u])[0];
      assert Fold([u]) == [k];
      SqueezeCons(at, k, Fold(s));
      SqueezeCons(at, k, Fold(t));
    }
  }

  /** Where two passes stand together: `inner` is where the first one does, `outer` the second. */
  function Standing(outer: At, inner: At): At { if inner == Gap && outer == Word then Gap else outer }

  lemma SpaceStep(outer: At, inner: At, s: Text)
    requires s != [] && IsSpace(s[0]) && (inner == Start ==> outer != Word)
    ensures Squeeze(inner, s) == Squeeze(AfterSpace(inner), s[1..])
    ensures Squeeze(Standing(outer, inner), Fold(s)) == Squeeze(Standing(outer, AfterSpace(inner)), Fold(s[1..]))
  {
    hide Fold;
    FoldCons(s);
    FoldUnit(s[0]);
    SqueezeCons(Standing(outer, inner), s[0], Fold(s[1..]));
  }

  lemma UnitStep(outer: At, inner: At, u: Unit, rest: Text)
    requires !IsSpace(u) && (inner == Start ==> outer != Word)
    requires forall at :: Squeeze(at, Fold(Squeeze(Word, rest))) == Squeeze(at, Fold(rest))
    ensures Squeeze(outer, Fold(Squeeze(inner, [u] + rest))) == Squeeze(Standing(outer, inner), Fold([u] + rest))
  {
    hide Fold, Squeeze;
    var kept := [u] + Squeeze(Word, rest);
    SqueezeCons(inner, u, rest);
    SqueezeFoldUnit(Standing(outer, inner), u, Squeeze(Word, rest), rest);
    if inner == Gap {
      assert Squeeze(inner, [u] + rest) == [SPACE] + kept;
      SqueezeFoldSpace(outer, kept);
    } else {
      assert Squeeze(inner, [u] + rest) == kept;
    }
  }

  /** Squeezing the spaces before folding makes no difference to squeezing after it. */
  lemma {:induction false} SqueezeFoldSqueeze(outer: At, inner: At, s: Text)
    requires inner == Start ==> outer != Word
    ensures Squeeze(outer, Fold(Squeeze(inner, s))) == Squeeze(Standing(outer, inner), Fold(s))
    decreases s
  {
    if s == [] {
      assert Fold([]) == [];
    } else {
      hide Fold, Squeeze;
      var rest := s[1..];
      assert s == [s[0]] + rest;
      if IsSpace(s[0]) {
        SpaceStep(outer, inner, s);
        SqueezeFoldSqueeze(outer, AfterSpace(inner), rest);
      } else {
        forall at ensures Squeeze(at, Fold(Squeeze(Word, rest))) == Squeeze(at, Fold(rest)) {
          SqueezeFoldSqueeze(at, Word, rest);
        }
        UnitStep(outer, inner, s[0], rest);
      }
    }
  }

  // ---------- Keys ----------

  lemma KeyIsSqueeze(name: Text)
    ensures ScreeningKey(name) == Squeeze(Start, Fold(name))
  {
    TidyIsSqueeze(Fold(name));
  }

  /** Tidying a name first does not change its key. */
  lemma TidyKeepsKey(name: Text)
    ensures ScreeningKey(Tidy(name)) == ScreeningKey(name)
  {
    TidyIsSqueeze(name);
    KeyIsSqueeze(Tidy(name));
    KeyIsSqueeze(name);
    SqueezeFoldSqueeze(Start, Start, name);
  }

  /** The number of key units a text folds to: what a key must contain besides its spaces. */
  function KeyUnits(s: Text): nat {
    if s == [] then 0 else (if IsSpace(s[0]) then 0 else 1) + KeyUnits(s[1..])
  }

  lemma {:induction false} SqueezeKeepsUnits(at: At, s: Text)
    ensures KeyUnits(Squeeze(at, s)) == KeyUnits(s)
    decreases s
  {
    if s != [] {
      SqueezeKeepsUnits(AfterSpace(at), s[1..]);
      SqueezeKeepsUnits(Word, s[1..]);
      var r := Squeeze(at, s);
      if !IsSpace(s[0]) {
        var tail := Squeeze(Word, s[1..]);
        if at == Gap {
          assert r == [SPACE] + ([s[0]] + tail) && r[1..] == [s[0]] + tail;
        }
        assert ([s[0]] + tail)[1..] == tail;
      }
    }
  }

  lemma {:induction false} KeyUnitsAppend(a: Text, b: Text)
    ensures KeyUnits(a + b) == KeyUnits(a) + KeyUnits(b)
  {
    if a == [] { assert a + b == b; } else { KeyUnitsAppend(a[1..], b); assert (a + b)[1..] == a[1..] + b; }
  }

  /** Spaces at the end of what is folded are trimmed away. */
  lemma {:induction false} SqueezeIgnoresTail(at: At, s: Text, tail: Text)
    requires KeyUnits(tail) == 0
    ensures Squeeze(at, s + tail) == Squeeze(at, s)
    decreases |s| + |tail|
  {
    if s != [] {
      assert (s + tail)[1..] == s[1..] + tail;
      SqueezeIgnoresTail(AfterSpace(at), s[1..], tail);
      SqueezeIgnoresTail(Word, s[1..], tail);
    } else {
      assert s + tail == tail;
      if tail != [] {
        SqueezeIgnoresTail(AfterSpace(at), [], tail[1..]);
        assert [] + tail[1..] == tail[1..];
      }
    }
  }

  /** Exactly when the stored key of a record equals the key its name is screened under: nothing
      beyond the first 1000 units of the tidied name would have reached the key. */
  lemma KeysAgreeExactlyWhen(name: Text)
    ensures StoredKey(name) == ScreeningKey(name)
            <==> |Tidy(name)| <= 1000 || KeyUnits(Fold(Tidy(name)[1000..])) == 0
  {
    var tidy := Tidy(name);
    TidyKeepsKey(name);
    if |tidy| > 1000 {
      var head, tail := tidy[..1000], tidy[1000..];
      assert head + tail == tidy;
      FoldAppend(head, tail);
      KeyIsSqueeze(head);
      KeyIsSqueeze(tidy);
      KeyUnitsAppend(Fold(head), Fold(tail));
      SqueezeKeepsUnits(Start, Fold(head));
      SqueezeKeepsUnits(Start, Fold(tidy));
      if KeyUnits(Fold(tail)) == 0 {
        SqueezeIgnoresTail(Start, Fold(head), Fold(tail));
      }
    }
  }

  /** The normaliser is idempotent. */
  lemma KeyOfKey(name: Text)
    ensures ScreeningKey(ScreeningKey(name)) == ScreeningKey(name)
  {
    KeyIsSqueeze(name);
    KeyIsSqueeze(ScreeningKey(name));
    SqueezeFoldSqueeze(Start, Start, Fold(name));
    FoldOfFold(name);
  }

  lemma {:induction false} FoldOfFold(s: Text)
    ensures Fold(Fold(s)) == Fold(s)
  {
    if s != [] {
      FoldCons(s);
      FoldOfFold(s[1..]);
      FoldAppend(Fold([s[0]]), Fold(s[1..]));
      FoldUnit(s[0]);
      if Fold([s[0]]) != [] {
        var k := Fold([s[0]])[0];
        assert Fold([s[0]]) == [k];
        FoldUnit(k);
        KeyUnitFolds(k);
      }
    }
  }

  lemma KeyUnitFolds(k: Unit)
    requires IsKeyUnit(k) || IsSpace(k)
    ensures Fold([k]) == [k]
  {
    assert [k][1..] == [] && LowerCase([k]) == Lower(k) + LowerCase([]) == [k];
    KeepOne(k);
  }

  // ---------- Names that read the same ----------

  /** Upper case, as far as keys can tell: the Kelvin sign is a K and the dotted capital I an I. */
  function Capital(u: Unit): Unit {
    if 0x61 <= u <= 0x7A then u - 0x20 else if u == 0x212A then 0x4B else if u == 0x130 then 0x49 else u
  }

  predicate SameLetter(u: Unit, v: Unit) { Capital(u) == Capital(v) }

  /** Neither a space nor, in either case, a letter A to Z, nor a digit. */
  predicate Punctuation(u: Unit) {
    !IsSpace(u) && !(0x41 <= Capital(u) <= 0x5A) && !(0x30 <= u <= 0x39)
  }

  predicate Blank(s: Text) {
    s == [] || ((Punctuation(s[0]) || IsSpace(s[0])) && Blank(s[1..]))
  }

  /** Do two names read the same from here on, letter by letter, apart from case, from punctuation and
      from how spaces are spread? `at` is where both readings stand: only right after a letter does it
      matter whether a space comes next. */
  predicate SameReading(at: At, a: Text, b: Text)
    decreases |a| + |b|
  {
    if Blank(a) || Blank(b) then Blank(a) && Blank(b)
    else if Punctuation(a[0]) || (IsSpace(a[0]) && at != Word) then SameReading(at, a[1..], b)
    else if Punctuation(b[0]) || (IsSpace(b[0]) && at != Word) then SameReading(at, a, b[1..])
    else if IsSpace(a[0]) || IsSpace(b[0]) then IsSpace(a[0]) && IsSpace(b[0]) && SameReading(Gap, a[1..], b[1..])
    else SameLetter(a[0], b[0]) && SameReading(Word, a[1..], b[1..])
  }

  /** Exactly punctuation is dropped, a space stays, and exactly the same letters fold alike. */
  lemma FoldTellsLetters(u: Unit, v: Unit)
    ensures Fold([u]) == [] <==> Punctuation(u)
    ensures IsSpace(u) ==> Fold([u]) == [u]
    ensures !Punctuation(u) && !IsSpace(u) ==> |Fold([u])| == 1 && IsKeyUnit(Fold([u])[0])
    ensures SameLetter(u, v) ==> Fold([u]) == Fold([v])
    ensures Fold([u]) == Fold([v]) != [] ==> SameLetter(u, v)
  {
    FoldOne(u);
    FoldOne(v);
  }

  /** One unit of the pass over the folded name. */
  lemma ReadUnit(at: At, s: Text)
    requires s != []
    ensures Squeeze(at, Fold(s))
         == if Punctuation(s[0]) then Squeeze(at, Fold(s[1..]))
            else if IsSpace(s[0]) then Squeeze(AfterSpace(at), Fold(s[1..]))
            else (if at == Gap then [SPACE] else []) + Fold([s[0]]) + Squeeze(Word, Fold(s[1..]))
  {
    hide Fold, Squeeze;
    FoldCons(s);
    FoldTellsLetters(s[0], s[0]);
    if Fold([s[0]]) == [] {
      assert Fold(s) == Fold(s[1..]);
    } else {
      var k := Fold([s[0]])[0];
      assert Fold([s[0]]) == [k];
      SqueezeCons(at, k, Fold(s[1..]));
    }
  }

  /** Blank names are those that leave nothing; after a gap, any other name prints a space first. */
  lemma {:induction false} BlankLeavesNothing(at: At, s: Text)
    ensures Blank(s) <==> Squeeze(at, Fold(s)) == []
    ensures at == Gap && !Blank(s) ==> Squeeze(at, Fold(s))[0] == SPACE
    decreases s
  {
    if s == [] {
      assert Fold([]) == [];
    } else {
      hide Fold, Squeeze;
      ReadUnit(at, s);
      FoldTellsLetters(s[0], s[0]);
      BlankLeavesNothing(at, s[1..]);
      BlankLeavesNothing(AfterSpace(at), s[1..]);
    }
  }

  lemma {:induction false} ReadingIsSqueeze(at: At, a: Text, b: Text)
    ensures SameReading(at, a, b) <==> Squeeze(at, Fold(a)) == Squeeze(at, Fold(b))
    decreases |a| + |b|
  {
    hide Fold, Squeeze;
    BlankLeavesNothing(at, a);
    BlankLeavesNothing(at, b);
    if !Blank(a) && !Blank(b) {
      ReadUnit(at, a);
      ReadUnit(at, b);
      if Punctuation(a[0]) || (IsSpace(a[0]) && at != Word) {
        ReadingIsSqueeze(at, a[1..], b);
      } else if Punctuation(b[0]) || (IsSpace(b[0]) && at != Word) {
        ReadingIsSqueeze(at, a, b[1..]);
      } else {
        FoldTellsLetters(a[0], b[0]);
        FoldTellsLetters(b[0], a[0]);
        if IsSpace(a[0]) || IsSpace(b[0]) {
          BlankLeavesNothing(Gap, a[1..]);
          BlankLeavesNothing(Gap, b[1..]);
          ReadingIsSqueeze(Gap, a[1..], b[1..]);
        } else {
          LettersCancel(at, Fold([a[0]]), Fold([b[0]]), Squeeze(Word, Fold(a[1..])), Squeeze(Word, Fold(b[1..])));
          ReadingIsSqueeze(Word, a[1..], b[1..]);
        }
      }
    }
  }

  lemma LettersCancel(at: At, a: Text, b: Text, s: Text, t: Text)
    requires |a| == |b|
    ensures var gap := if at == Gap then [SPACE] else [];
            gap + a + s == gap + b + t <==> a == b && s == t
  {
    var gap := if at == Gap then [SPACE] else [];
    var x, y := gap + a + s, gap + b + t;
    assert x[|gap|..][..|a|] == a && x[|gap|..][|a|..] == s && y[|gap|..][..|a|] == b && y[|gap|..][|a|..] == t;
  }

  /** Exactly when two names have the same key: they read the same apart from letter case, from
      punctuation anywhere, and from the kind, length and outer runs of spacing. */
  lemma KeysEqualExactlyWhen(a: Text, b: Text)
    ensures ScreeningKey(a) == ScreeningKey(b) <==> SameReading(Start, a, b)
  {
    KeyIsSqueeze(a);
    KeyIsSqueeze(b);
    ReadingIsSqueeze(Start, a, b);
  }

  predicate Spacing(s: Text) {
    s != [] && forall i :: 0 <= i < |s| ==> IsSpace(s[i])
  }

  predicate AllPunctuation(s: Text) {
    forall i :: 0 <= i < |s| ==> Punctuation(s[i])
  }

  predicate SameLetters(a: Text, b: Text) {
    |a| == |b| && forall i :: 0 <= i < |a| ==> SameLetter(a[i], b[i])
  }

  /** Anywhere in a name, letters may change case, punctuation may be inserted, removed or replaced, and
      any non-empty spacing may replace any other, without changing the key. */
  lemma KeyIgnores(before: Text, a: Text, b: Text, after: Text)
    requires SameLetters(a, b) || (AllPunctuation(a) && AllPunctuation(b)) || (Spacing(a) && Spacing(b))
    ensures ScreeningKey(before + a + after) == ScreeningKey(before + b + after)
  {
    hide Fold, ScreeningKey, Squeeze;
    KeyIsSqueeze(before + a + after);
    KeyIsSqueeze(before + b + after);
    FoldAppend(before + a, after);
    FoldAppend(before, a);
    FoldAppend(before + b, after);
    FoldAppend(before, b);
    if SameLetters(a, b) {
      SameLettersFold(a, b);
    } else if AllPunctuation(a) && AllPunctuation(b) {
      PunctuationFolds(a);
      PunctuationFolds(b);
    } else {
      SpacingFolds(a);
      SpacingFolds(b);
      SqueezeAnySpacing(Start, Fold(before), Fold(a), Fold(b), Fold(after));
    }
  }

  lemma {:induction false} SameLettersFold(a: Text, b: Text)
    requires SameLetters(a, b)
    ensures Fold(a) == Fold(b)
  {
    if a != [] {
      FoldCons(a);
      FoldCons(b);
      FoldTellsLetters(a[0], b[0]);
      SameLettersFold(a[1..], b[1..]);
    }
  }

  lemma {:induction false} PunctuationFolds(s: Text)
    requires AllPunctuation(s)
    ensures Fold(s) == []
  {
    if s != [] {
      FoldCons(s);
      FoldTellsLetters(s[0], s[0]);
      PunctuationFolds(s[1..]);
    }
  }

  lemma {:induction false} SpacingFolds(s: Text)
    requires Spacing(s)
    ensures Fold(s) == s
  {
    FoldCons(s);
    FoldUnit(s[0]);
    if |s| > 1 { SpacingFolds(s[1..]); } else { assert s[1..] == [] && Fold([]) == []; }
  }

  lemma {:induction false} SqueezeSpacing(at: At, gap: Text, after: Text)
    requires Spacing(gap)
    ensures Squeeze(at, gap + after) == Squeeze(AfterSpace(at), after)
    decreases gap
  {
    assert (gap + after)[1..] == gap[1..] + after;
    if |gap| > 1 {
      SqueezeSpacing(AfterSpace(at), gap[1..], after);
    } else {
      assert gap[1..] + after == after;
    }
  }

  lemma {:induction false} SqueezeAnySpacing(at: At, before: Text, a: Text, b: Text, after: Text)
    requires Spacing(a) && Spacing(b)
    ensures Squeeze(at, before + a + after) == Squeeze(at, before + b + after)
    decreases before
  {
    if before == [] {
      assert before + a + after == a + after && before + b + after == b + after;
      SqueezeSpacing(at, a, after);
      SqueezeSpacing(at, b, after);
    } else {
      var rest := before[1..];
      assert (before + a + after)[1..] == rest + a + after && (before + b + after)[1..] == rest + b + after;
      SqueezeAnySpacing(AfterSpace(at), rest, a, b, after);
      SqueezeAnySpacing(Word, rest, a, b, after);
    }
  }
}

/** Foreign tokens: which tag one is given, and when it can be read back. */
module Retags {
  import opened Text
  import opened Restore
  import opened TagStore
  import opened StoreRuns
  import opened Shapes
  import opened RoundTrip
  import opened Cells
  import opened Repeats
  import opened RowsBack

  /** The tag of the family with the token's core of `2 * n` digits. */
  function TokenTag(st: Store, tok: string, prefix: string, n: Width): string {
    OrDefault(prefix) + Core(st, tok, n)
  }

  /** One of the tags with eight, ten and twelve digits is free, or the token's own. */
  predicate OneFree(st: Store, tok: string, prefix: string) {
    Free(st, TokenTag(st, tok, prefix, 4), tok) || Free(st, TokenTag(st, tok, prefix, 5), tok)
    || Free(st, TokenTag(st, tok, prefix, 6), tok)
  }

  /** The shortest of them. */
  function NewToken(st: Store, tok: string, prefix: string): string {
    if Free(st, TokenTag(st, tok, prefix, 4), tok) then TokenTag(st, tok, prefix, 4)
    else if Free(st, TokenTag(st, tok, prefix, 5), tok) then TokenTag(st, tok, prefix, 5)
    else TokenTag(st, tok, prefix, 6)
  }

  /** A mint that starts behind twelve digits gives no tag that can be read. */
  lemma {:induction false} WideIsNotRead(st: Store, fam: string, v: string, ws: seq<Width>)
    requires IsFamily(fam) && forall i | 0 <= i < |ws| :: ws[i] > 6
    ensures var m := MintAt(st, fam, v, ws); m.tag.Some? ==> !WholeTag(m.tag.value)
    decreases |ws|
  {
    hide IsFamily, IsTag;
    if ws != [] {
      FamilyEndOf(fam, Core(st, v, ws[0]));
      WideIsNotRead(Indexed(st, v, ws[0]), fam, v, ws[1..]);
    }
  }

  lemma FamilyEndOf(fam: string, core: string)
    requires IsFamily(fam) && AllHex(core)
    ensures FamPart(fam + core) == fam && CorePart(fam + core) == core
    ensures |core| > 12 ==> !WholeTag(fam + core)
    ensures 8 <= |core| <= 12 ==> WholeTag(fam + core)
  {
    FamilyEndIs(fam, core);
  }

  /** A mint passes over widths that are taken. */
  lemma MintPasses(st: Store, fam: string, v: string)
    requires !Free(st, fam + Core(st, v, 4), v) && !Free(st, fam + Core(st, v, 6), v)
    ensures Mint(st, fam, v) == MintAt(Indexed(Indexed(st, v, 4), v, 6), fam, v, [8, 10, 12])
  {
    var st1 := Indexed(st, v, 4);
    assert MINT_WIDTHS[1..] == [6, 8, 10, 12] && MINT_WIDTHS[1..][1..] == [8, 10, 12];
    assert Core(st1, v, 6) == Core(st, v, 6) && Core(st1, v, 4) == Core(st, v, 4);
  }

  lemma RetagUnfolds(st: Store, tok: string, prefix: string)
    ensures OneFree(st, tok, prefix) ==> Retag(st, tok, prefix).tag == Some(NewToken(st, tok, prefix))
    ensures !OneFree(st, tok, prefix) ==> Retag(st, tok, prefix) == Mint(st, OrDefault(prefix), tok)
  {
    hide MintAt;
    assert RETAG_WIDTHS[1..] == [5, 6] && RETAG_WIDTHS[1..][1..] == [6] && RETAG_WIDTHS[1..][1..][1..] == [];
  }

  /** A foreign token is given a tag that restoring reads exactly when one with eight, ten or twelve
      digits is free: then it is the shortest such. */
  lemma RetagReadableIff(st: Store, tok: string, prefix: string)
    requires IsFamily(OrDefault(prefix))
    ensures var m := Retag(st, tok, prefix);
            (m.tag.Some? && WholeTag(m.tag.value) <==> OneFree(st, tok, prefix))
            && (OneFree(st, tok, prefix) ==> m.tag == Some(NewToken(st, tok, prefix)))
  {
    hide WholeTag, IsFamily, RetagAt, MintAt;
    var fam := OrDefault(prefix);
    RetagUnfolds(st, tok, prefix);
    if OneFree(st, tok, prefix) {
      FamilyEndOf(fam, Core(st, tok, 4));
      FamilyEndOf(fam, Core(st, tok, 5));
      FamilyEndOf(fam, Core(st, tok, 6));
    } else {
      MintPasses(st, fam, tok);
      WideIsNotRead(Indexed(Indexed(st, tok, 4), tok, 6), fam, tok, [8, 10, 12]);
    }
  }

  /** Such a tag restores to the token, alone or in front of anything that is no part of it, with
      the tables as they are then or later. */
  lemma RetagRestores(st: Store, tok: string, prefix: string, t: Tables, y: string)
    requires IsFamily(OrDefault(prefix)) && OneFree(st, tok, prefix)
    requires forall k | k in Retag(st, tok, prefix).st.tags ::
               k in t.tags && t.tags[k] == Retag(st, tok, prefix).st.tags[k]
    ensures var tag := NewToken(st, tok, prefix);
            RestoreAll(t, tag) == Output(tok, 1)
            && (Follows(CorePart(tag), y) ==> RestoreAll(t, tag + y) == Join(Output(tok, 1), RestoreAll(t, y)))
  {
    hide IsFamily, RetagAt, RestoreAll, Follows, IsTag;
    var tag := NewToken(st, tok, prefix);
    RetagReadableIff(st, tok, prefix);
    RetagAtKeeps(st, OrDefault(prefix), tok, RETAG_WIDTHS);
    assert t.tags[tag] == tok;
    if Follows(CorePart(tag), y) {
      RestoresTag(t, tag, y);
    }
    NothingFollows(CorePart(tag));
    RestoresTag(t, tag, "");
    assert tag + "" == tag;
    RestoreOfNothing(t, tok);
  }

  lemma NothingFollows(core: string)
    ensures Follows(core, "")
  {}

  lemma RestoreOfNothing(t: Tables, v: string)
    ensures Join(Output(v, 1), RestoreAll(t, "")) == Output(v, 1)
  {
    assert v + "" == v;
  }

  /** Nothing else restores differently: what the core index had, of whatever family, it keeps, and only tags with the
      token's core that it did not know are restored to the token. */
  lemma RetagLeavesOthers(st: Store, tok: string, prefix: string, f: string, core: string)
    requires IsFamily(OrDefault(prefix)) && OneFree(st, tok, prefix)
    requires f + core != NewToken(st, tok, prefix)
    ensures var a := Resolve(TablesOf(st), f, core);
            var b := Resolve(TablesOf(Retag(st, tok, prefix).st), f, core);
            b == if a.None? && core == CorePart(NewToken(st, tok, prefix)) then Some(tok) else a
  {
    hide IsFamily, Retag, NewToken, OneFree, FamPart, CorePart, WholeTag;
    RetagEnters(st, tok, prefix);
    var n: Width :| n <= 6 && NewToken(st, tok, prefix) == TokenTag(st, tok, prefix, n)
                    && Retag(st, tok, prefix).st == AfterToken(st, tok, prefix, n);
    FamilyEndOf(OrDefault(prefix), Core(st, tok, n));
  }

  /** The state with that tag entered, and its core if that was not there. */
  function AfterToken(st: Store, tok: string, prefix: string, n: Width): Store {
    Entered(st.(cores := Default(st.cores, Core(st, tok, n), tok)), TokenTag(st, tok, prefix, n), tok)
  }

  lemma RetagEnters(st: Store, tok: string, prefix: string)
    requires OneFree(st, tok, prefix)
    ensures exists n: Width :: n <= 6 && NewToken(st, tok, prefix) == TokenTag(st, tok, prefix, n)
                               && Retag(st, tok, prefix).st == AfterToken(st, tok, prefix, n)
  {
    hide Entered;
    assert RETAG_WIDTHS[1..] == [5, 6] && RETAG_WIDTHS[1..][1..] == [6];
    var n: Width := if Free(st, TokenTag(st, tok, prefix, 4), tok) then 4
                    else if Free(st, TokenTag(st, tok, prefix, 5), tok) then 5 else 6;
    assert Retag(st, tok, prefix).st == AfterToken(st, tok, prefix, n);
  }

  // ---------- what is minted beside it ----------

  /** Only `tag` may be new, and it stands for `v`. */
  ghost predicate AddsAtMost(a: Store, b: Store, tag: string, v: string) {
    SameKeys(a, b) && SameCells(a, b)
    && (forall k | k in a.tags :: k in b.tags && b.tags[k] == a.tags[k])
    && (forall k | k in b.tags && k !in a.tags :: k == tag && b.tags[k] == v)
  }

  lemma {:induction false} RetagAddsAtMost(st: Store, tok: string, prefix: string)
    requires Coherent(st) && OneFree(st, tok, prefix)
    ensures AddsAtMost(st, Retag(st, tok, prefix).st, NewToken(st, tok, prefix), tok)
    ensures Later(st, Retag(st, tok, prefix).st) && Coherent(Retag(st, tok, prefix).st)
  {
    hide RetagAt;
    RetagUnfolds(st, tok, prefix);
    RetagAtKeeps(st, OrDefault(prefix), tok, RETAG_WIDTHS);
    RetagAtAdds(st, OrDefault(prefix), tok, RETAG_WIDTHS);
    RetagAtKeepsCells(st, OrDefault(prefix), tok, RETAG_WIDTHS);
  }

  /** An entry for something else leaves the tag a token will be given. */
  lemma {:induction false} NewTokenStays(a: Store, b: Store, tag: string, v: string, tok: string, prefix: string)
    requires AddsAtMost(a, b, tag, v) && OneFree(a, tok, prefix)
    requires tag in a.tags || v == tok || tag != NewToken(a, tok, prefix)
    ensures OneFree(b, tok, prefix) && NewToken(b, tok, prefix) == NewToken(a, tok, prefix)
  {
    assert forall n: Width :: Core(b, tok, n) == Core(a, tok, n);
  }
}

/**
 Which rows the conditions of a built query select.

 A condition is read as words: OR separates groups, AND separates the parts of a group, in any mix of
 capital and small letters. What a part says of a row is left to a truth value per part.
 */
module SqlConditions {
  import opened Texts
  import opened Decimals
  import opened SqlTexts
  import opened SqlBuilders

  type Words = seq<string>

  function WordsOf(text: string): Words {
    Split(Lower(text), ' ')
  }

  ghost predicate AllHold(parts: seq<Words>, truth: Words -> bool) {
    forall i :: 0 <= i < |parts| ==> truth(parts[i])
  }

  /** AND binds more tightly than OR. */
  ghost predicate Meets(words: Words, truth: Words -> bool) {
    exists i :: 0 <= i < |Split(words, "or")| && AllHold(Split(Split(words, "or")[i], "and"), truth)
  }

  ghost predicate Selects(text: string, truth: Words -> bool) {
    Meets(WordsOf(text), truth)
  }

  predicate HasOr(text: string) {
    "or" in WordsOf(text)
  }

  lemma LowerConcat(a: string, b: string)
    ensures Lower(a + b) == Lower(a) + Lower(b)
  {
  }

  lemma AndWords(a: string, b: string)
    ensures WordsOf(a + " AND " + b) == WordsOf(a) + ["and"] + WordsOf(b)
  {
    hide Split, Lower;
    LowerConcat(a, " AND ");
    LowerConcat(a + " AND ", b);
    LowerAnd();
    var x, y := Lower(a), Lower(b);
    assert x + " and " + y == x + [' '] + ("and" + [' '] + y);
    SplitBetween(x, ' ', "and" + [' '] + y);
    SplitBetween("and", ' ', y);
    OneWord("and", ' ');
    assert Split(x, ' ') + (["and"] + Split(y, ' ')) == Split(x, ' ') + ["and"] + Split(y, ' ');
  }

  lemma LowerAnd()
    ensures Lower(" AND ") == " and "
  {
  }

  lemma OneWord<T>(s: seq<T>, sep: T)
    requires sep !in s
    ensures Split(s, sep) == [s]
  {
    SplitPart(s, [], sep);
    assert s + [] == s;
  }

  /** Without OR a text selects the rows for which all its parts hold. */
  lemma MeetsWithoutOr(words: Words, truth: Words -> bool)
    requires "or" !in words
    ensures Meets(words, truth) <==> AllHold(Split(words, "and"), truth)
  {
    OneWord(words, "or");
    hide Split;
    assert Split(words, "or")[0] == words;
  }

  lemma AllHoldConcat(a: seq<Words>, b: seq<Words>, truth: Words -> bool)
    ensures AllHold(a + b, truth) <==> AllHold(a, truth) && AllHold(b, truth)
  {
    if AllHold(a + b, truth) {
      assert forall i :: 0 <= i < |a| ==> a[i] == (a + b)[i];
      assert forall i :: 0 <= i < |b| ==> b[i] == (a + b)[|a| + i];
    }
  }

  lemma AndOfTwo(a: string, b: string, truth: Words -> bool)
    requires !HasOr(a) && !HasOr(b)
    ensures !HasOr(a + " AND " + b)
    ensures Selects(a + " AND " + b, truth) <==> Selects(a, truth) && Selects(b, truth)
  {
    AndWords(a, b);
    hide WordsOf, AllHold, Split, Meets;
    var u, v := WordsOf(a), WordsOf(b);
    MeetsWithoutOr(u, truth);
    MeetsWithoutOr(v, truth);
    MeetsWithoutOr(u + ["and"] + v, truth);
    SplitBetween(u, "and", v);
    AllHoldConcat(Split(u, "and"), Split(v, "and"), truth);
  }

  /** Conditions without OR: the built text selects exactly the rows that every condition selects. */
  lemma {:induction false} WhereSelects(conditions: seq<string>, truth: Words -> bool)
    requires conditions != [] && forall i :: 0 <= i < |conditions| ==> !HasOr(conditions[i])
    ensures " WHERE " <= WhereText(conditions)
    ensures !HasOr(WhereText(conditions)[7..])
    ensures Selects(WhereText(conditions)[7..], truth) <==>
              forall i :: 0 <= i < |conditions| ==> Selects(conditions[i], truth)
  {
    hide HasOr, Selects;
    var rest := conditions[1..];
    var text := Join(conditions, " AND ");
    assert (" WHERE " + text)[7..] == text;
    if |conditions| == 1 {
      assert text == conditions[0];
    } else {
      WhereSelects(rest, truth);
      var tail := Join(rest, " AND ");
      assert (" WHERE " + tail)[7..] == tail;
      assert text == conditions[0] + " AND " + tail;
      AndOfTwo(conditions[0], tail, truth);
      assert forall i :: 0 < i < |conditions| ==> conditions[i] == rest[i - 1];
      assert forall i :: 0 <= i < |rest| ==> rest[i] == conditions[i + 1];
    }
  }

  // ----- A condition with OR -----

  /** A word that no part of `text` consists of. */
  function NewWord(text: string): (w: string)
    ensures |w| == |text| + 3 && forall i :: 0 <= i < |w| ==> w[i] == 'x'
  {
    seq(|text| + 3, _ => 'x')
  }

  lemma NewWordAlone(text: string)
    ensures WordsOf(NewWord(text)) == [NewWord(text)]
    ensures !HasOr(NewWord(text))
    ensures NewWord(text) !in WordsOf(text)
  {
    var w := NewWord(text);
    assert Lower(w) == w;
    OneWord(w, ' ');
    PartsWithin(Lower(text), ' ');
  }

  /** A part made of a word that does not occur is not among the parts. */
  lemma NotAPart(words: Words, w: string)
    requires w !in words
    ensures [w] !in Split(Split(words, "or")[0], "and")
  {
    hide Split;
    PartsWithin(words, "or");
    var group := Split(words, "or")[0];
    PartsWithin(group, "and");
    assert w !in group;
    assert forall i :: 0 <= i < |Split(group, "and")| ==> w !in Split(group, "and")[i];
    assert w in [w];
  }

  /** Where a condition has an OR, a row for which a further condition is false is selected all the
      same, through the part before the OR. */
  lemma OrTakesOver(c: string, truth: Words -> bool)
    requires HasOr(c) && forall words :: truth(words) <==> words != [NewWord(c)]
    ensures Selects(c + " AND " + NewWord(c), truth)
    ensures !Selects(NewWord(c), truth)
  {
    var w, u := NewWord(c), WordsOf(c);
    AndWords(c, w);
    NewWordAlone(c);
    NotAPart(u, w);
    FirstPartStays(u, ["and"] + [w], "or");
    assert u + (["and"] + [w]) == u + ["and"] + [w];
    OneWord([w], "or");
    OneWord([w], "and");
    hide Split, WordsOf, NewWord;
    assert AllHold(Split(Split(u, "or")[0], "and"), truth);
    assert Split([w], "or")[0] == [w];
    assert [[w]][0] == [w];
  }

  /** `c` can be combined: with any further condition without OR, the text selects the rows that both
      select. */
  ghost predicate Combines(c: string) {
    forall d, truth: Words -> bool :: !HasOr(d) ==>
      (Selects(c + " AND " + d, truth) <==> Selects(c, truth) && Selects(d, truth))
  }

  /** A condition can be combined exactly if it contains no OR: the builder sets no parentheses. */
  lemma CombinesIff(c: string)
    ensures Combines(c) <==> !HasOr(c)
  {
    if HasOr(c) {
      var truth: Words -> bool := words => words != [NewWord(c)];
      OrTakesOver(c, truth);
      NewWordAlone(c);
      hide HasOr, Selects, NewWord;
      assert !(Selects(c + " AND " + NewWord(c), truth) <==> Selects(c, truth) && Selects(NewWord(c), truth));
    } else {
      hide HasOr, Selects;
      forall d, truth: Words -> bool | !HasOr(d)
        ensures Selects(c + " AND " + d, truth) <==> Selects(c, truth) && Selects(d, truth)
      {
        AndOfTwo(c, d, truth);
      }
    }
  }

  // ----- Whole texts -----

  /** Every part of a query in its place. */
  lemma WholeQuery()
    ensures QueryText(Frame("users", ["id", "name"], "city", "name", 10, 20), ["age > ?", "city = ?"], "COUNT(*) > ?")
            == "SELECT id, name FROM users" + " WHERE age > ? AND city = ?" + " GROUP BY city"
               + " HAVING COUNT(*) > ?" + (" ORDER BY name" + " LIMIT 10" + " OFFSET 20")
  {
    var f := Frame("users", ["id", "name"], "city", "name", 10, 20);
    hide *;
    HeadOfQuery(f);
    WhereOfQuery();
    MiddleOfQuery(f);
    TailOfQuery(f);
    InOrder(f, ["age > ?", "city = ?"], "COUNT(*) > ?");
  }

  lemma WhereOfQuery()
    ensures WhereText(["age > ?", "city = ?"]) == " WHERE age > ? AND city = ?"
  {
    WhereOfTwo("age > ?", "city = ?");
    hide *;
    assert " WHERE " + "age > ?" + " AND " + "city = ?" == " WHERE age > ? AND city = ?";
  }

  lemma InOrder(f: Frame, where_: seq<string>, having: string)
    ensures QueryText(f, where_, having)
            == f.Head() + WhereText(where_) + f.Group() + HavingText(having) + f.Tail()
  {
  }

  lemma HeadOfQuery(f: Frame)
    requires f.table == "users" && f.fields == ["id", "name"]
    ensures f.Head() == "SELECT id, name FROM users"
  {
    assert Join(f.fields, ", ") == "id" + ", " + "name" by {
      JoinTwo("id", "name", ", ");
    }
  }

  lemma JoinTwo(a: string, b: string, sep: string)
    ensures Join([a, b], sep) == a + sep + b
  {
    assert [a, b][1..] == [b];
  }

  lemma WhereOfTwo(a: string, b: string)
    ensures WhereText([a, b]) == " WHERE " + a + " AND " + b
  {
    JoinTwo(a, b, " AND ");
    hide Join;
  }

  lemma MiddleOfQuery(f: Frame)
    requires f.groupBy == "city"
    ensures f.Group() == " GROUP BY city"
    ensures HavingText("COUNT(*) > ?") == " HAVING COUNT(*) > ?"
  {
  }

  lemma TailOfQuery(f: Frame)
    requires f.orderBy == "name" && f.limit == 10 && f.offset == 20
    ensures f.Tail() == " ORDER BY name" + " LIMIT 10" + " OFFSET 20"
  {
    assert Itoa(10) == "10" && Itoa(20) == "20";
    hide Itoa;
    assert " ORDER BY " + "name" == " ORDER BY name";
    assert " LIMIT " + "10" == " LIMIT 10" && " OFFSET " + "20" == " OFFSET 20";
  }

  /** Without fields all are taken, and what was not set leaves no keyword. */
  lemma ShortQuery()
    ensures QueryText(Frame("users", [], "", "", 0, -1), [], "") == "SELECT * FROM users"
  {
  }

  /** The fields come first, each with a placeholder, then the conditions. */
  lemma WholeUpdate<A>(sets: map<string, A>)
    requires "name" in sets && "age" in sets
    ensures UpdateText("users", ClauseTexts(SetClauses(sets, ["name", "age"])), ["id = ?", "city = ?"])
            == "UPDATE users" + " SET name = ?, age = ?" + " WHERE id = ? AND city = ?"
  {
    hide *;
    SetsOfUpdate(sets);
    WhereOfUpdate();
    assert "UPDATE " + "users" == "UPDATE users";
    UpdateInOrder("users", ClauseTexts(SetClauses(sets, ["name", "age"])), ["id = ?", "city = ?"]);
  }

  lemma SetsOfUpdate<A>(sets: map<string, A>)
    requires "name" in sets && "age" in sets
    ensures " SET " + Join(ClauseTexts(SetClauses(sets, ["name", "age"])), ", ") == " SET name = ?, age = ?"
  {
    TwoSets(sets, "name", "age");
    hide *;
    assert " SET " + "name" + " = ?, " + "age" + " = ?" == " SET name = ?, age = ?";
  }

  lemma WhereOfUpdate()
    ensures WhereText(["id = ?", "city = ?"]) == " WHERE id = ? AND city = ?"
  {
    WhereOfTwo("id = ?", "city = ?");
    hide *;
    assert " WHERE " + "id = ?" + " AND " + "city = ?" == " WHERE id = ? AND city = ?";
  }

  lemma UpdateInOrder(table: string, sets: seq<string>, where_: seq<string>)
    ensures UpdateText(table, sets, where_) == "UPDATE " + table + (" SET " + Join(sets, ", ")) + WhereText(where_)
  {
    hide Join, WhereText;
  }

  lemma TwoSets<A>(sets: map<string, A>, a: string, b: string)
    requires a in sets && b in sets
    ensures " SET " + Join(ClauseTexts(SetClauses(sets, [a, b])), ", ") == " SET " + a + " = ?, " + b + " = ?"
  {
    assert [a, b][1..] == [b] && [b][1..] == [];
    var first, second := Clause(a + " = ?", [sets[a]]), Clause(b + " = ?", [sets[b]]);
    assert SetClauses(sets, [b]) == [second];
    assert SetClauses(sets, [a, b]) == [first, second];
    TwoTexts(first, second);
    hide SetClauses, ClauseTexts;
    JoinTwo(first.text, second.text, ", ");
    hide Join;
    assert " = ?" + ", " == " = ?, ";
  }

  lemma TwoTexts<A>(first: Clause<A>, second: Clause<A>)
    ensures ClauseTexts([first, second]) == [first.text, second.text]
  {
    assert [first, second][1..] == [second] && [second][1..] == [];
    assert ClauseTexts([second]) == [second.text];
  }

  /** A group of placeholders for each row. */
  lemma WholeInsert<A>(a: A, b: A, c: A, d: A)
    ensures InsertHead("users", ["id", "name"]) + Join(ClauseTexts(Rows([[a, b], [c, d]])), ",")
            == "INSERT INTO users (id, name) VALUES " + "(?,?)" + "," + "(?,?)"
    ensures InsertHead("users", []) == "INSERT INTO users VALUES "
  {
    InsertHeads();
    var first, second := [a, b], [c, d];
    RowOfTwo();
    hide InsertHead, RowText;
    assert [first, second][1..] == [second] && [second][1..] == [];
    assert Rows([second]) == [Clause("(?,?)", second)];
    assert Rows([first, second]) == [Clause("(?,?)", first), Clause("(?,?)", second)];
    hide Rows;
    TwoTexts(Clause("(?,?)", first), Clause("(?,?)", second));
    JoinTwo("(?,?)", "(?,?)", ",");
  }

  lemma RowOfTwo()
    ensures RowText(2) == "(?,?)"
  {
    assert Marks(2) == ["?"] + Marks(1) && Marks(1) == ["?"] + Marks(0);
    JoinTwo("?", "?", ",");
  }

  lemma InsertHeads()
    ensures InsertHead("users", ["id", "name"]) == "INSERT INTO users (id, name) VALUES "
    ensures InsertHead("users", []) == "INSERT INTO users VALUES "
  {
    JoinTwo("id", "name", ", ");
    hide Join;
  }
}

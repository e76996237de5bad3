/** The worked examples of the task list's behaviour, checked against the model. */
module Scenarios {
  import opened Seqs
  import opened Text
  import opened Tasks
  import opened Views

  /** The tag text of the worked example splits into four pieces. */
  lemma SplitExample()
    ensures Split("  ui, , perf ,ui", ',') == ["  ui", " ", " perf ", "ui"]
  {
    var pieces := ["  ui", " ", " perf ", "ui"];
    assert Join(pieces[3..], ',') == "ui";
    assert Join(pieces[2..], ',') == " perf ,ui";
    assert Join(pieces[1..], ',') == " , perf ,ui";
    assert Join(pieces, ',') == "  ui, , perf ,ui";
    SplitJoin(pieces, ',');
  }

  /** The tag list of the worked example, normalised from its last piece backwards. */
  lemma TagsTail1()
    ensures TrimPieces(["ui"]) == ["ui"]
  {
    TrimAt("ui", 0, 2);
    assert "ui"[0..2] == "ui";
    TrimPiecesCons("ui", []);
    assert ["ui"] + [] == ["ui"];
  }

  lemma TagsTail2()
    ensures TrimPieces([" perf ", "ui"]) == ["perf", "ui"]
  {
    TagsTail1();
    TrimAt(" perf ", 1, 5);
    assert " perf "[1..5] == "perf";
    TrimPiecesCons(" perf ", ["ui"]);
    assert [" perf "] + ["ui"] == [" perf ", "ui"];
  }

  lemma TagsTail3()
    ensures TrimPieces([" ", " perf ", "ui"]) == ["perf", "ui"]
  {
    TagsTail2();
    TrimEmpty(" ");
    TrimPiecesCons(" ", [" perf ", "ui"]);
    assert [" "] + [" perf ", "ui"] == [" ", " perf ", "ui"];
  }

  lemma TrimUi()
    ensures Trim("  ui") == "ui"
  {
    TrimAt("  ui", 2, 4);
    assert "  ui"[2..4] == "ui";
  }

  lemma TagsAll()
    ensures TrimPieces(["  ui", " ", " perf ", "ui"]) == ["ui", "perf", "ui"]
  {
    TagsTail3();
    TrimUi();
    TrimPiecesCons("  ui", [" ", " perf ", "ui"]);
    assert ["  ui"] + [" ", " perf ", "ui"] == ["  ui", " ", " perf ", "ui"];
  }

  /** Empty pieces are dropped, whitespace is trimmed, and order and repetitions are kept. */
  lemma TagsExample()
    ensures NormalizeTags("  ui, , perf ,ui") == ["ui", "perf", "ui"]
  {
    SplitExample();
    TagsAll();
  }

  const LoginBug := Task("task-1", "Fix login bug", "bug", "high", "", "pending", ["auth"], "", "", "")

  /** The search is case-insensitive and looks at titles and tags; the type select applies
      on top of it. */
  lemma SearchExample()
    ensures FilterTasks([LoginBug], Query("login", "all", "all")) == [LoginBug]
    ensures FilterTasks([LoginBug], Query("login", "feature", "all")) == []
    ensures FilterTasks([LoginBug], Query("auth", "all", "all")) == [LoginBug]
    ensures FilterTasks([LoginBug], Query("LOGIN", "all", "all")) == [LoginBug]
  {
    LowerFixed("login");
    assert Lower(LoginBug.title)[4..9] == "login";
    assert OccursAt(Lower("login"), Lower(LoginBug.title), 4);
    var folded := Lower("LOGIN");
    assert folded[0] == 'l' && folded[1] == 'o' && folded[2] == 'g' && folded[3] == 'i' && folded[4] == 'n';
    assert folded == "login";
    assert OccursAt(Lower("LOGIN"), Lower(LoginBug.title), 4);
    LowerFixed("auth");
    assert OccursAt(Lower("auth"), Lower(LoginBug.tags[0]), 0);
  }
}

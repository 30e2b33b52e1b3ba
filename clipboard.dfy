/**
  How the host routes an editing action: copy and cut fill the host's own
  clipboard string from the view's selection, paste inserts that string,
  and every other action goes to the view unchanged.

  The view is seen only through what the routing asks of it: its current
  selection, the selection expanded to whole lines, the text inside a
  selection, and the calls the host makes on it, kept as a log.
*/
module Clipboard {
  import opened Actions

  /** A selection in the view's document, by its two ends. */
  datatype Selection = Selection(anchor: int, focus: int) {
    predicate IsEmpty() { anchor == focus }
  }

  /** A call the host makes on the view. */
  datatype ViewCall =
    | InsertText(text: string)
    | ChangeSelection(selection: Selection)
    | Forward(action: Action)
    | Render

  /** The host's clipboard and view selection after routing, and the calls made. */
  datatype Routed = Routed(clipboard: string, selection: Selection, calls: seq<ViewCall>)

  /** The range copy and cut take: the selection, or its lines when it is empty. */
  function CopyRange(selection: Selection, expand: Selection -> Selection): Selection {
    if selection.IsEmpty() then expand(selection) else selection
  }

  /**
    Routing of one action. The view's selection changes only on a cut;
    the clipboard changes only on copy and cut; copy makes no view call.
  */
  function Route(action: Action, clipboard: string, selection: Selection,
                 expand: Selection -> Selection, textIn: Selection -> string): (r: Routed)
    ensures r.clipboard != clipboard ==> action == Copy || action == Cut
    ensures r.selection != selection ==> action == Cut
    ensures action == Copy <==> r.calls == []
    ensures |r.calls| <= 2
  {
    if action == Copy then Routed(textIn(CopyRange(selection, expand)), selection, [])
    else if action == Cut then
      var range := CopyRange(selection, expand);
      Routed(textIn(range), range, [ChangeSelection(range), InsertText("")])
    else if action == Paste then Routed(clipboard, selection, [InsertText(clipboard)])
    else Routed(clipboard, selection, [Forward(action)])
  }

  /** Copy and cut take the text of the selection, or of its lines when it is empty. */
  lemma CopyTakesSelection(action: Action, clipboard: string, selection: Selection,
                           expand: Selection -> Selection, textIn: Selection -> string)
    requires action == Copy || action == Cut
    ensures var r := Route(action, clipboard, selection, expand, textIn);
      && (!selection.IsEmpty() ==> r.clipboard == textIn(selection))
      && (selection.IsEmpty() ==> r.clipboard == textIn(expand(selection)))
  {
  }

  /** Cut selects the range it copied and replaces it with nothing. */
  lemma CutDeletesRange(clipboard: string, selection: Selection,
                        expand: Selection -> Selection, textIn: Selection -> string)
    ensures var r := Route(Cut, clipboard, selection, expand, textIn);
      && r.selection == CopyRange(selection, expand)
      && r.calls == [ChangeSelection(CopyRange(selection, expand)), InsertText("")]
  {
  }

  /** Paste inserts the clipboard unchanged and keeps it. */
  lemma PasteInsertsClipboard(clipboard: string, selection: Selection,
                              expand: Selection -> Selection, textIn: Selection -> string)
    ensures var r := Route(Paste, clipboard, selection, expand, textIn);
      && r.clipboard == clipboard && r.selection == selection
      && r.calls == [InsertText(clipboard)]
  {
  }

  /** Every action other than copy, cut and paste is forwarded verbatim. */
  lemma OthersForwarded(action: Action, clipboard: string, selection: Selection,
                        expand: Selection -> Selection, textIn: Selection -> string)
    requires action != Copy && action != Cut && action != Paste
    ensures Route(action, clipboard, selection, expand, textIn) == Routed(clipboard, selection, [Forward(action)])
  {
  }

  /** Copy followed by paste inserts exactly the copied text. */
  lemma CopyThenPaste(clipboard: string, selection: Selection,
                      expand: Selection -> Selection, textIn: Selection -> string)
    ensures var c := Route(Copy, clipboard, selection, expand, textIn);
      var p := Route(Paste, c.clipboard, c.selection, expand, textIn);
      c.calls + p.calls == [InsertText(textIn(CopyRange(selection, expand)))]
  {
  }
}

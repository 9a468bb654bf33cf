/** json_builder.c itself: every call changes the buffer, the depth and the flags as JsonText says. */
module JsonBuilder {
  import opened JsonText

  class Builder {
    var buf: string
    var depth: nat
    const first: array<bool>
    const quote: Quoting

    predicate Ready()
      reads this, first
    {
      depth < first.Length
    }

    function View(): State
      reads this, first
    {
      State(buf, first[..], depth)
    }

    /** json_new; `depths` is JSON_MAX_DEPTH. */
    constructor (depths: nat, quote: Quoting)
      requires depths > 0
      ensures Ready() && fresh(first) && View() == New(depths) && this.quote == quote
    {
      buf, depth, this.quote := "", 0, quote;
      first := new bool[depths](_ => true);
    }

    // ---------- the pieces every call is made of ----------

    method PutComma()
      requires Ready()
      modifies this`buf, first
      ensures Ready() && View() == Comma(old(View()))
    {
      if !first[depth] {
        buf := buf + ",";
      }
      first[depth] := false;
    }

    method Put(text: string)
      requires Ready()
      modifies this`buf
      ensures Ready() && View() == Append(old(View()), text)
    {
      buf := buf + text;
    }

    method PutPiece(text: string)
      requires Ready()
      modifies this`buf
      ensures Ready() && View() == AppendPiece(old(View()), text)
    {
      if 0 < |text| < PieceSize {
        Put(text);
      }
    }

    method Descend()
      requires Ready()
      modifies this`depth, first
      ensures Ready() && View() == Push(old(View()))
    {
      if depth < first.Length - 1 {
        depth := depth + 1;
        first[depth] := true;
      }
    }

    method Ascend()
      requires Ready()
      modifies this`depth
      ensures Ready() && View() == Pop(old(View()))
    {
      if depth > 0 {
        depth := depth - 1;
      }
    }

    // ---------- containers ----------

    method ObjOpen()
      requires Ready()
      modifies this`buf, this`depth, first
      ensures Ready() && View() == Step(old(View()), OpenObject, quote)
    {
      PutComma();
      Put("{");
      Descend();
    }

    method ObjClose()
      requires Ready()
      modifies this`buf, this`depth
      ensures Ready() && View() == Step(old(View()), CloseObject, quote)
    {
      Put("}");
      Ascend();
    }

    method KeyObjOpen(key: string)
      requires Ready()
      modifies this`buf, this`depth, first
      ensures Ready() && View() == Step(old(View()), OpenKeyObject(key), quote)
    {
      PutComma();
      PutPiece(Quoted(key) + "{");
      Descend();
    }

    method ArrOpen(key: string)
      requires Ready()
      modifies this`buf, this`depth, first
      ensures Ready() && View() == Step(old(View()), OpenArray(key), quote)
    {
      PutComma();
      if key != "" {
        PutPiece(Quoted(key) + "[");
      } else {
        Put("[");
      }
      Descend();
    }

    method ArrClose()
      requires Ready()
      modifies this`buf, this`depth
      ensures Ready() && View() == Step(old(View()), CloseArray, quote)
    {
      Put("]");
      Ascend();
    }

    // ---------- members ----------

    /** Either buffer that the source may use is large enough, as quoting gives at most six
        characters for one; so the empty value it falls back on is never needed. */
    method AddString(key: string, value: string)
      requires Ready() && Bounded(quote)
      modifies this`buf, first
      ensures Ready() && View() == Step(old(View()), AddStr(key, value), quote)
    {
      PutComma();
      ghost var needSize := |key| + 4 + |value| * 6 + 16;
      ghost var size := if needSize <= PieceSize then PieceSize else needSize;
      var text := Quoted(key) + quote(value);
      assert 0 < |text| < size;
      Put(text);
    }

    method AddNum(key: string, text: string)
      requires Ready()
      modifies this`buf, first
      ensures Ready() && View() == Step(old(View()), AddNumber(key, text), quote)
    {
      PutComma();
      PutPiece(Quoted(key) + text);
    }

    method AddBoolean(key: string, b: bool)
      requires Ready()
      modifies this`buf, first
      ensures Ready() && View() == Step(old(View()), AddBool(key, b), quote)
    {
      PutComma();
      PutPiece(Quoted(key) + if b then "true" else "false");
    }

    method AddNothing(key: string)
      requires Ready()
      modifies this`buf, first
      ensures Ready() && View() == Step(old(View()), AddNull(key), quote)
    {
      PutComma();
      PutPiece(Quoted(key) + "null");
    }

    method AddRawText(key: string, text: string)
      requires Ready()
      modifies this`buf, first
      ensures Ready() && View() == Step(old(View()), AddRaw(key, text), quote)
    {
      PutComma();
      if key != "" {
        if |key| + |text| + 8 <= PieceSize {
          PutPiece(Quoted(key) + text);
        } else {
          Put(KeyPart(key));
          Put(text);
        }
      } else {
        Put(text);
      }
    }

    // ---------- elements ----------

    method ArrAddString(value: string)
      requires Ready() && Bounded(quote)
      modifies this`buf, first
      ensures Ready() && View() == Step(old(View()), AddElementStr(value), quote)
    {
      PutComma();
      ghost var needSize := |value| * 6 + 16;
      ghost var size := if needSize <= PieceSize then PieceSize else needSize;
      assert 0 < |quote(value)| < size;
      Put(quote(value));
    }

    method ArrAddNum(text: string)
      requires Ready()
      modifies this`buf, first
      ensures Ready() && View() == Step(old(View()), AddElementNumber(text), quote)
    {
      PutComma();
      PutPiece(text);
    }

    method ArrAddBoolean(b: bool)
      requires Ready()
      modifies this`buf, first
      ensures Ready() && View() == Step(old(View()), AddElementBool(b), quote)
    {
      PutComma();
      Put(if b then "true" else "false");
    }
  }
}

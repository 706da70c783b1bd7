/**
 The visitor that lowers expressions (lib/Lower/ASTToMLIR.cpp), as the object it
 is: each call appends ops to the block under construction.
 */
module LoweringBuilder {
  import opened Wrappers
  import opened Powers
  import opened BitVectors
  import opened Literals
  import opened Lowering

  class Builder {
    var ops: seq<Op>
    const tables: Tables

    constructor (declared: seq<Op>, tables: Tables)
      ensures ops == declared && this.tables == tables
    {
      ops := declared;
      this.tables := tables;
    }

    /** Appends an op and returns its value. */
    method Create(op: Op) returns (v: Option<nat>)
      modifies this
      ensures Lowered(ops, v) == Push(old(ops), op)
    {
      v := Some(|ops|);
      ops := ops + [op];
    }

    method LowerExpr(e: Expr, hint: Option<Type>) returns (v: Option<nat>)
      modifies this
      ensures Lowered(ops, v) == Lower(e, hint, old(ops), tables)
      decreases e
    {
      match e
      case Literal(lit) =>
        var n := NumeralOf(lit);
        if n.Malformed? {
          return None;
        }
        v := Create(Constant(n.value, Bits(LiteralWidth(n, hint))));
      case Name(path) =>
        if |path| != 1 {
          return None;
        }
        if path[0] in tables.controls {
          ops := ops + [FireProbe(path[0], Nothing)];
          return None;
        }
        if path[0] !in tables.names {
          return None;
        }
        v := Some(tables.names[path[0]]);
      case Binary(op, lhs, rhs) =>
        var a := LowerExpr(lhs, hint);
        if a.None? {
          return None;
        }
        var ty := TypeAt(ops, a.value);
        var b := LowerExpr(rhs, Some(ty));
        if b.None? || !HasOp(op) {
          return None;
        }
        v := Create(BinaryOp(op, a.value, b.value, ResultType(op, ty)));
      case Unary(op, sub) =>
        var a := LowerExpr(sub, hint);
        if a.None? || op.Plus? {
          return a;
        }
        v := Create(UnaryOp(op, a.value, UnaryType(op, TypeAt(ops, a.value))));
      case Extend(signed, to, sub) =>
        var ty := Bits(WidthArg(to));
        var a := LowerExpr(sub, Some(ty));
        if a.None? {
          return None;
        }
        v := Create(ExtendOp(signed, a.value, ty));
      case Conditional(_, _, _) => v := LowerConditional(e, hint);
      case Slice(sub, hi, lo) =>
        var a := LowerExpr(sub, None);
        var h := IndexArg(hi);
        var l := if lo.Some? then IndexArg(lo.value) else h;
        if a.None? || h < l {
          return None;
        }
        v := Create(ExtractOp(a.value, l, Bits(SliceWidth(h, l))));
      case Concat(parts) => v := LowerConcat(parts);
      case Repeat(count, sub) =>
        var n := CountArg(count, tables.params);
        if n < 1 {
          return None;
        }
        var a := LowerExpr(sub, None);
        if a.None? || !TypeAt(ops, a.value).Bits? {
          return None;
        }
        v := Create(RepeatOp(a.value, n, Bits(Low32(Times(n, TypeAt(ops, a.value).width)))));
      case Unlowered => v := None;
    }

    method LowerConditional(e: Expr, hint: Option<Type>) returns (v: Option<nat>)
      requires e.Conditional?
      modifies this
      ensures Lowered(ops, v) == Lower(e, hint, old(ops), tables)
      decreases e, 0
    {
      var c := LowerExpr(e.cond, Some(Bits(1)));
      if c.None? {
        return None;
      }
      var a := LowerExpr(e.thenE, hint);
      if a.None? {
        return None;
      }
      var ty := TypeAt(ops, a.value);
      var b := LowerExpr(e.elseE, Some(ty));
      if b.None? {
        return None;
      }
      v := Create(MuxOp(c.value, a.value, b.value, ty));
    }

    /** The loop over a concatenation's parts. */
    method LowerConcat(parts: Exprs) returns (v: Option<nat>)
      modifies this
      ensures Lowered(ops, v) == LowerParts(parts, old(ops), tables, [], 0)
      decreases parts
    {
      var args: seq<nat>, total: nat := [], 0;
      var rest := parts;
      while rest.Cons?
        invariant LowerParts(parts, old(ops), tables, [], 0) == LowerParts(rest, ops, tables, args, total)
        invariant rest == parts || rest < parts
        decreases rest
      {
        var a := LowerExpr(rest.first, None);
        if a.None? || !TypeAt(ops, a.value).Bits? {
          return None;
        }
        total := Low32(total + TypeAt(ops, a.value).width);
        args := args + [a.value];
        rest := rest.more;
      }
      if args == [] {
        return None;
      }
      v := Create(ConcatOp(args, Bits(total)));
    }
  }
}

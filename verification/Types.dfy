/** Field types of a record and their textual names. */
module Types {
  import Decimal

  datatype DataType =
    | Undefine | Bool | Char | Void | Int8 | UInt8 | Int16 | UInt16
    | Int32 | UInt32 | Int64 | UInt64 | Float | Double | Ptr

  /** Size of one element in bytes, on a 64-bit machine. */
  function TypeSize(t: DataType): (n: nat)
    ensures n == 0 || n == 1 || n == 2 || n == 4 || n == 8
    ensures n == 0 <==> t.Undefine?
  {
    match t
    case Undefine => 0
    case Bool => 1
    case Char => 1
    case Void => 1
    case Int8 => 1
    case UInt8 => 1
    case Int16 => 2
    case UInt16 => 2
    case Int32 => 4
    case UInt32 => 4
    case Int64 => 8
    case UInt64 => 8
    case Float => 4
    case Double => 8
    case Ptr => 8
  }

  /** Whether a type can carry named bits. */
  predicate IsInteger(t: DataType) {
    t in {Bool, Int8, UInt8, Int16, UInt16, Int32, UInt32, Int64, UInt64}
  }

  function TypeName(t: DataType): string {
    match t
    case Undefine => "Undefine"
    case Bool => "Bool"
    case Char => "Char"
    case Void => "Void"
    case Int8 => "Int8"
    case UInt8 => "UInt8"
    case Int16 => "Int16"
    case UInt16 => "UInt16"
    case Int32 => "Int32"
    case UInt32 => "UInt32"
    case Int64 => "Int64"
    case UInt64 => "UInt64"
    case Float => "Float"
    case Double => "Double"
    case Ptr => "Ptr"
  }

  function TypeFromName(s: string): DataType {
    if s == "Bool" then Bool
    else if s == "Char" then Char
    else if s == "Int8" then Int8
    else if s == "UInt8" then UInt8
    else if s == "Int16" then Int16
    else if s == "UInt16" then UInt16
    else if s == "Int32" then Int32
    else if s == "UInt32" then UInt32
    else if s == "Int64" then Int64
    else if s == "UInt64" then UInt64
    else if s == "Float" then Float
    else if s == "Double" then Double
    else if s == "Ptr" then Ptr
    else Undefine
  }

  /** A type survives being written and read back exactly when it is not Void. */
  lemma TypeRoundTrip(t: DataType)
    ensures TypeFromName(TypeName(t)) == t <==> t != Void
  {
    match t
    case Int8 => assert TypeName(t)[0] == 'I' && |TypeName(t)| == 4;
    case UInt8 => assert TypeName(t)[0] == 'U' && |TypeName(t)| == 5;
    case Int16 => assert TypeName(t)[3] == '1' && |TypeName(t)| == 5;
    case UInt16 => assert TypeName(t)[4] == '1' && |TypeName(t)| == 6;
    case Int32 => assert TypeName(t)[3] == '3' && |TypeName(t)| == 5;
    case UInt32 => assert TypeName(t)[4] == '3' && |TypeName(t)| == 6;
    case Int64 => assert TypeName(t)[3] == '6' && |TypeName(t)| == 5;
    case UInt64 => assert TypeName(t)[4] == '6' && |TypeName(t)| == 6;
    case Float => assert TypeName(t)[0] == 'F';
    case Double => assert TypeName(t)[0] == 'D';
    case Char => assert TypeName(t)[0] == 'C';
    case Ptr => assert TypeName(t)[0] == 'P';
    case Void => assert TypeName(t)[0] == 'V';
    case Undefine => assert |TypeName(t)| == 8;
    case Bool =>
  }

  /** The names of the sized integers are their sign and their width in bits. */
  lemma NameTellsSize(t: DataType)
    ensures t in {Int8, Int16, Int32, Int64} ==> TypeName(t) == "Int" + Decimal.Print(8 * TypeSize(t))
    ensures t in {UInt8, UInt16, UInt32, UInt64} ==> TypeName(t) == "UInt" + Decimal.Print(8 * TypeSize(t))
    ensures IsInteger(t) <==>
      t == Bool || exists n :: TypeName(t) in {"Int" + Decimal.Print(n), "UInt" + Decimal.Print(n)}
  {
    Decimal.TwoDigits(1, 6);
    Decimal.TwoDigits(3, 2);
    Decimal.TwoDigits(6, 4);
    Decimal.OneDigit(8);
    if IsInteger(t) && t != Bool {
      var n := 8 * TypeSize(t);
      assert TypeName(t) == "Int" + Decimal.Print(n) || TypeName(t) == "UInt" + Decimal.Print(n);
    } else if t != Bool {
      forall n ensures TypeName(t) !in {"Int" + Decimal.Print(n), "UInt" + Decimal.Print(n)} {
        NoNumber(TypeName(t), Decimal.Print(n));
      }
    }
  }

  lemma NoNumber(name: string, digits: string)
    requires name in {"Undefine", "Char", "Void", "Float", "Double", "Ptr"} && Decimal.IsUnsignedInteger(digits)
    ensures name != "Int" + digits && name != "UInt" + digits
  {
    assert ("Int" + digits)[0] == 'I' && ("UInt" + digits)[..4] == "UInt";
    assert ("UInt" + digits)[1] == 'I';
  }
}

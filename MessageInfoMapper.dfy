/**
 * The domain-side mapper from the persistence detail DTO to MessageInfo: field copies, the
 * sender's "surnames, names" display name, and the attachment list rebuilt element by element.
 * Every conversion maps null to null.
 */
module MessageInfoMapper {
  import opened Wrappers
  import opened DetailDtos

  /**
   * concatenarApellidosNombres: null when both parts are null, the present part when only one is,
   * and "surnames, names" when both are.
   */
  function ConcatenarApellidosNombres(apellidos: Option<string>, nombres: Option<string>): (r: Option<string>)
    ensures r.None? <==> apellidos.None? && nombres.None?
    ensures apellidos.None? ==> r == nombres
    ensures nombres.None? ==> r == apellidos
    ensures apellidos.Some? && nombres.Some? ==>
      var a, n := apellidos.value, nombres.value;
      |r.value| == |a| + 2 + |n| && r.value[..|a|] == a && r.value[|a|..|a| + 2] == ", " && r.value[|a| + 2..] == n
  {
    if apellidos.None? && nombres.None? then None
    else if apellidos.None? then nombres
    else if nombres.None? then apellidos
    else Some(apellidos.value + ", " + nombres.value)
  }

  /**
   * When the surnames contain no comma, the display name of two present parts determines both:
   * the surnames end at the first comma.
   */
  lemma ApenomDeterminesParts(a1: string, n1: string, a2: string, n2: string)
    requires ',' !in a1 && ',' !in a2
    requires ConcatenarApellidosNombres(Some(a1), Some(n1)) == ConcatenarApellidosNombres(Some(a2), Some(n2))
    ensures a1 == a2 && n1 == n2
  {
    var s := a1 + ", " + n1;
    assert s == a2 + ", " + n2;
    CommaEndsSurnames(a1, n1);
    CommaEndsSurnames(a2, n2);
    assert |a1| == |a2|;
    assert a1 == s[..|a1|] == a2;
    assert n1 == s[|a1| + 2..] == n2;
  }

  /** In a display name built from comma-free surnames, the first comma stands right after them. */
  lemma CommaEndsSurnames(a: string, n: string)
    requires ',' !in a
    ensures (a + ", " + n)[|a|] == ','
    ensures forall i :: 0 <= i < |a| ==> (a + ", " + n)[i] != ','
  {
  }

  /** A comma inside the surnames makes two different name pairs display alike. */
  lemma CommaInSurnamesIsAmbiguous()
    ensures ConcatenarApellidosNombres(Some("Diaz, Ruiz"), Some("Ana")) == ConcatenarApellidosNombres(Some("Diaz"), Some("Ruiz, Ana"))
  {
    assert "Diaz, Ruiz" + ", " + "Ana" == "Diaz" + ", " + "Ruiz, Ana";
  }

  /** toSenderInfo: null stays null; ids and user name copied, display name from the concatenation rule. */
  function ToSenderInfo(remitente: Option<RemitentInfoDto>): (r: Option<SenderInfo>)
    ensures r.Some? <==> remitente.Some?
    ensures remitente.Some? ==> var d := remitente.value;
      && r.value.idUsuario == d.idUser && r.value.idEmpleado == d.idEmpleado && r.value.noUsuario == d.usuario
      && r.value.apenomPersonal == ConcatenarApellidosNombres(d.apellidos, d.nombres)
  {
    if remitente.None? then None
    else
      var d := remitente.value;
      Some(SenderInfo(ConcatenarApellidosNombres(d.apellidos, d.nombres), d.idEmpleado, d.idUser, d.usuario))
  }

  /** toAttachmentInfo: null stays null; every field copied (fileName into filename). */
  function ToAttachmentInfo(dto: Option<AttachmentInfoDto>): (r: Option<AttachmentInfo>)
    ensures r.Some? <==> dto.Some?
    ensures dto.Some? ==> var d := dto.value;
      r.value.id == d.id && r.value.filePath == d.filePath && r.value.filename == d.fileName
      && r.value.fileType == d.fileType && r.value.uploadedAt == d.uploadedAt
  {
    if dto.None? then None
    else
      var d := dto.value;
      Some(AttachmentInfo(d.id, d.filePath, d.fileName, d.fileType, d.uploadedAt))
  }

  /** The conversion loses nothing: distinct attachments stay distinct. */
  lemma ToAttachmentInfoInjective(x: Option<AttachmentInfoDto>, y: Option<AttachmentInfoDto>)
    requires ToAttachmentInfo(x) == ToAttachmentInfo(y)
    ensures x == y
  {
  }

  /**
   * toAttachmentInfoList: null stays null; otherwise a new list built in one pass, the i-th
   * element being the conversion of the i-th (null elements stay null).
   */
  method ToAttachmentInfoList(dtos: Option<seq<Option<AttachmentInfoDto>>>) returns (r: Option<seq<Option<AttachmentInfo>>>)
    ensures r.Some? <==> dtos.Some?
    ensures dtos.Some? ==> |r.value| == |dtos.value|
    ensures dtos.Some? ==> forall i :: 0 <= i < |dtos.value| ==> r.value[i] == ToAttachmentInfo(dtos.value[i])
  {
    if dtos.None? {
      return None;
    }
    var list: seq<Option<AttachmentInfo>> := [];
    for i := 0 to |dtos.value|
      invariant |list| == i
      invariant forall j :: 0 <= j < i ==> list[j] == ToAttachmentInfo(dtos.value[j])
    {
      list := list + [ToAttachmentInfo(dtos.value[i])];
    }
    return Some(list);
  }

  /**
   * toMessageInfo: null stays null; id, subject and content copied into idMessage, asunto and
   * htmlcontent; the sender and the attachments converted, each left null when absent.
   */
  method ToMessageInfo(details: Option<MessageDetailsDto>) returns (r: Option<MessageInfo>)
    ensures r.Some? <==> details.Some?
    ensures details.Some? ==> var d, m := details.value, r.value;
      && m.idMessage == d.id && m.asunto == d.subject && m.htmlcontent == d.content
      && (m.senderUser.Some? <==> d.remitente.Some?)
      && m.senderUser == ToSenderInfo(d.remitente)
      && (m.attachments.Some? <==> d.attachments.Some?)
      && (d.attachments.Some? ==> |m.attachments.value| == |d.attachments.value|)
      && (d.attachments.Some? ==>
            forall i :: 0 <= i < |d.attachments.value| ==> m.attachments.value[i] == ToAttachmentInfo(d.attachments.value[i]))
  {
    if details.None? {
      return None;
    }
    var d := details.value;
    var info := MessageInfo(d.id, d.subject, d.content, None, None);
    if d.remitente.Some? {
      info := info.(senderUser := ToSenderInfo(d.remitente));
    }
    if d.attachments.Some? {
      var attachments := ToAttachmentInfoList(d.attachments);
      info := info.(attachments := attachments);
    }
    return Some(info);
  }
}

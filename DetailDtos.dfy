/**
 * The data-only records around the message-detail read: the persistence DTOs (MessageDetailsDTO
 * and its parts), the domain DTOs the mapper fills (MessageInfo, SenderInfo, AttachmentInfo), and
 * the employee and user rows the names come from (only the fields the mappers read). Every field
 * is a reference that may be null.
 */
module DetailDtos {
  import opened Wrappers
  import opened JavaInts
  import opened JavaTime

  datatype AttachmentInfoDto = AttachmentInfoDto(
    id: Option<Int32>,
    filePath: Option<string>,
    fileName: Option<string>,
    fileType: Option<string>,
    uploadedAt: Option<LocalDate>)

  datatype RemitentInfoDto = RemitentInfoDto(
    idUser: Option<Int32>,
    idEmpleado: Option<Int32>,
    apellidos: Option<string>,
    nombres: Option<string>,
    usuario: Option<string>,
    email: Option<string>)

  datatype ReceiverInfoDto = ReceiverInfoDto(
    id: Option<Int32>,
    apellidos: Option<string>,
    nombres: Option<string>,
    username: Option<string>)

  datatype MessageDetailsDto = MessageDetailsDto(
    id: Option<Int32>,
    remitente: Option<RemitentInfoDto>,
    content: Option<string>,
    createAt: Option<LocalDate>,
    subject: Option<string>,
    receivers: Option<seq<Option<ReceiverInfoDto>>>,
    isRead: Option<string>,
    readAt: Option<LocalDate>,
    attachments: Option<seq<Option<AttachmentInfoDto>>>)

  datatype AttachmentInfo = AttachmentInfo(
    id: Option<Int32>,
    filePath: Option<string>,
    filename: Option<string>,
    fileType: Option<string>,
    uploadedAt: Option<LocalDate>)

  datatype SenderInfo = SenderInfo(
    apenomPersonal: Option<string>,
    idEmpleado: Option<Int32>,
    idUsuario: Option<Int32>,
    noUsuario: Option<string>)

  datatype MessageInfo = MessageInfo(
    idMessage: Option<Int32>,
    asunto: Option<string>,
    htmlcontent: Option<string>,
    attachments: Option<seq<Option<AttachmentInfo>>>,
    senderUser: Option<SenderInfo>)

  /** The EmpleadoEntity fields the name mappers read. */
  datatype Empleado = Empleado(
    id: Option<Int64>,
    primerApellido: Option<string>,
    segundoApellido: Option<string>,
    nombres: Option<string>,
    email: Option<string>)

  /** The UsuarioEntity fields the mappers read. */
  datatype Usuario = Usuario(
    id: Option<Int64>,
    empleado: Option<Empleado>,
    nameUser: Option<string>)
}
